/** One request at a time against the store. A read may fail; a change may be refused, applied
    and answered, or applied with the answer lost. Unless the script is alone, other writers
    may change the store before every request. */
module Requests {
  import opened Outcomes
  import opened GitHub

  /** What a script makes sure of outside the store: the bundle, that its bytes are still those, the
      line of a preview, and that the commit is on main. */
  datatype Check = Bundle | Bytes | Line | OnMain

  datatype Event =
    | Checked(check: Check)
    | RefRead(tag: Tag, ref: Option<Object>)
    | Listed(tag: Tag, rows: map<int, Release>)
    | ReleaseRead(id: int, release: Release)
    | RefCreated(tag: Tag, sha: Sha)
    | ReleaseCreated(tag: Tag, target: Sha, prerelease: bool, body: string)
    | Uploaded(tag: Tag, name: string, size: int, digest: string)
    | Undrafted(id: int, prerelease: bool)
    | MadeLatest(id: int)
    | ReleaseDeleted(id: int)
    | RefDeleted(tag: Tag)
    | Refused
    | Missing(id: int)

  /** How the log goes on after a change that was asked for: only one that was not answered with success leaves more. */
  ghost function Answer(ok: bool): seq<Event> { if ok then [] else [Refused] }

  class Remote {
    var s: Store
    /** no other writer */
    const alone: bool
    ghost var log: seq<Event>
    /** some request failed, or its answer was lost */
    ghost var faulted: bool
    /** some upload broke off and left a partial asset */
    ghost var broken: bool

    constructor (s: Store, alone: bool)
      ensures this.s == s && this.alone == alone && log == [] && !faulted && !broken
    {
      this.s, this.alone, log, faulted, broken := s, alone, [], false, false;
    }

    /** What the others do. A tag object, once written, stays what it is. */
    method Others()
      modifies this`s
      ensures alone ==> s == old(s)
      ensures Keeps(old(s.objects), s.objects)
    {
      if alone { return; }
      var u: Store := *;
      if Keeps(s.objects, u.objects) { s := u; }
    }

    /** A check outside this model, such as re-reading the local files, which may fail. */
    method LocalCheck(check: Check) returns (ok: bool)
      modifies this`log, this`faulted
      ensures faulted == (old(faulted) || !ok)
      ensures log == if ok then old(log) + [Checked(check)] else old(log)
    {
      ok := *;
      if ok { log := log + [Checked(check)]; } else { faulted := true; }
    }

    method ReadRef(tag: Tag) returns (r: Result<Option<Object>, ()>)
      modifies this`s, this`log, this`faulted
      ensures Keeps(old(s.objects), s.objects)
      ensures alone ==> s == old(s)
      ensures r.Ok? ==>
                r.value == (if tag in s.refs then Some(s.refs[tag]) else None)
                && log == old(log) + [RefRead(tag, r.value)]
      ensures r.Err? ==> log == old(log)
      ensures faulted == (old(faulted) || r.Err?)
    {
      Others();
      var fault: bool := *;
      if fault {
        faulted := true;
        return Err(());
      }
      r := Ok(if tag in s.refs then Some(s.refs[tag]) else None);
      log := log + [RefRead(tag, r.value)];
    }

    method ReadObject(sha: Sha) returns (r: Result<Option<Object>, ()>)
      modifies this`s, this`faulted
      ensures Keeps(old(s.objects), s.objects)
      ensures alone ==> s == old(s)
      ensures r.Ok? ==> r.value == (if sha in s.objects then Some(s.objects[sha]) else None)
      ensures faulted == (old(faulted) || r.Err?)
    {
      Others();
      var fault: bool := *;
      if fault {
        faulted := true;
        return Err(());
      }
      r := Ok(if sha in s.objects then Some(s.objects[sha]) else None);
    }

    /** The releases that carry `tag`, out of a full listing. */
    method List(tag: Tag) returns (r: Result<map<int, Release>, ()>)
      modifies this`s, this`log, this`faulted
      ensures Keeps(old(s.objects), s.objects)
      ensures alone ==> s == old(s)
      ensures r.Ok? ==>
                && r.value == (map i | i in s.releases && s.releases[i].tagName == tag :: s.releases[i])
                && log == old(log) + [Listed(tag, r.value)]
      ensures r.Err? ==> log == old(log)
      ensures faulted == (old(faulted) || r.Err?)
    {
      Others();
      var fault: bool := *;
      if fault {
        faulted := true;
        return Err(());
      }
      r := Ok(map i | i in Tagged(s, tag) :: s.releases[i]);
      log := log + [Listed(tag, r.value)];
    }

    method ReadRelease(id: int) returns (r: Result<Release, ()>)
      modifies this`s, this`log, this`faulted
      ensures Keeps(old(s.objects), s.objects)
      ensures alone ==> s == old(s)
      ensures r.Ok? ==> id in s.releases && r.value == s.releases[id] && log == old(log) + [ReleaseRead(id, r.value)]
      ensures r.Err? ==> log == old(log)
      ensures r.Err? && !faulted ==> id !in s.releases
      ensures old(faulted) ==> faulted
    {
      Others();
      var fault: bool := *;
      if fault { faulted := true; }
      if fault || id !in s.releases { return Err(()); }
      r := Ok(s.releases[id]);
      log := log + [ReleaseRead(id, s.releases[id])];
    }

    /** POST git/refs: refused when the reference exists. */
    method CreateRef(tag: Tag, sha: Sha) returns (ok: bool)
      modifies this`s, this`log, this`faulted
      ensures alone ==>
                s == old(s) || (tag !in old(s.refs) && s == old(s).(refs := old(s.refs)[tag := Object(sha, Commit)]))
      ensures ok ==> tag in s.refs && s.refs[tag] == Object(sha, Commit)
      ensures alone && tag !in old(s.refs) && !faulted ==> ok
      ensures log == old(log) + [RefCreated(tag, sha)] + Answer(ok) && (old(faulted) ==> faulted)
    {
      Others();
      ok := *;
      var applied: bool := *;
      if tag in s.refs {
        ok := false;
      } else {
        if ok || applied { s := s.(refs := s.refs[tag := Object(sha, Commit)]); }
        if !ok { faulted := true; }
      }
      log := log + [RefCreated(tag, sha)] + Answer(ok);
    }

    /** POST releases: a new draft without assets, under a number never used before. */
    method CreateDraft(tag: Tag, sha: Sha, prerelease: bool, body: string) returns (r: Result<Release, ()>)
      modifies this`s, this`log, this`faulted
      ensures alone ==> (s == old(s) || exists i ::
                i > 0 && i !in old(s.releases)
                && s == old(s).(releases := old(s.releases)[i := Draft(i, tag, sha, prerelease, body)]))
      ensures r.Ok? ==> r.value.id > 0 && r.value == Draft(r.value.id, tag, sha, prerelease, body)
                        && r.value.id in s.releases && s.releases[r.value.id] == r.value
      ensures alone && r.Ok? ==> r.value.id !in old(s.releases)
      ensures log == old(log) + [ReleaseCreated(tag, sha, prerelease, body)] + Answer(r.Ok?)
      ensures faulted == (old(faulted) || r.Err?)
    {
      Others();
      var i: int, ok: bool, applied: bool := *, *, *;
      ok := ok && i > 0 && i !in s.releases;
      if i > 0 && i !in s.releases && (ok || applied) {
        s := s.(releases := s.releases[i := Draft(i, tag, sha, prerelease, body)]);
      }
      if !ok { faulted := true; }
      log := log + [ReleaseCreated(tag, sha, prerelease, body)] + Answer(ok);
      r := if ok then Ok(Draft(i, tag, sha, prerelease, body)) else Err(());
    }

    /** What becomes of an upload to the release `i`: all of it arrives, or some row, or nothing. */
    method Receive(tag: Tag, i: int, whole: Row, sent: bool, row: Row) returns (ok: bool)
      requires whole.name.Some? && whole.size.Some? && whole.digest.Some?
               && whole == Finished(whole.id, whole.name.value, whole.size.value, whole.digest.value)
      modifies this`s, this`faulted, this`broken
      ensures
        || (s == old(s) && broken == old(broken))
        || (Arrived(old(s), s, tag, whole.name.value, whole.size.value, whole.digest.value, true)
            && broken == old(broken))
        || (Arrived(old(s), s, tag, whole.name.value, whole.size.value, whole.digest.value, false) && broken)
      ensures ok ==> Arrived(old(s), s, tag, whole.name.value, whole.size.value, whole.digest.value, true)
                     && broken == old(broken)
      ensures Tagged(old(s), tag) != {} && !faulted ==> ok
      ensures (old(faulted) ==> faulted) && (old(broken) ==> broken) && (broken && !old(broken) ==> faulted)
    {
      ok := false;
      ghost var was := s;
      if Tagged(s, tag) == {} { return; }
      if i in Tagged(s, tag) && sent && NewId(s.releases[i].assets, whole) {
        s := s.(releases := s.releases[i := WithRow(s.releases[i], whole)]);
        assert Added(was, s, tag, i, whole);
        ok := *;
        if !ok { faulted := true; }
      } else {
        faulted := true;
        if i in Tagged(s, tag) && row.name == whole.name && row.state != Some("uploaded") {
          broken := true;
          s := s.(releases := s.releases[i := WithRow(s.releases[i], row)]);
          assert Added(was, s, tag, i, row);
        }
      }
    }

    /** gh release upload, without --clobber. A broken upload leaves a row that is no finished
        asset. */
    method Upload(tag: Tag, name: string, size: int, digest: string) returns (ok: bool)
      modifies this`s, this`log, this`faulted, this`broken
      ensures alone ==> || (s == old(s) && broken == old(broken))
                        || (Arrived(old(s), s, tag, name, size, digest, true) && broken == old(broken))
                        || (Arrived(old(s), s, tag, name, size, digest, false) && broken)
      ensures ok && alone ==> Arrived(old(s), s, tag, name, size, digest, true) && broken == old(broken)
      ensures alone && Tagged(old(s), tag) != {} && !faulted ==> ok
      ensures log == old(log) + [Uploaded(tag, name, size, digest)] + Answer(ok) && (old(faulted) ==> faulted)
              && (old(broken) ==> broken)
      ensures broken && !old(broken) ==> faulted
    {
      Others();
      var i: int, id: int, sent: bool, row: Row := *, *, *, *;
      ok := Receive(tag, i, Finished(Some(id), name, size, digest), sent, row);
      log := log + [Uploaded(tag, name, size, digest)] + Answer(ok);
    }

    /** PATCH releases/{id} with draft false: the release becomes public now. */
    method Undraft(id: int, prerelease: bool) returns (ok: bool)
      modifies this`s, this`log, this`faulted
      ensures Keeps(old(s.objects), s.objects)
      ensures alone ==> s == old(s) || (id in old(s.releases) && exists time ::
                s == old(s).(releases := old(s.releases)[id := old(s.releases[id]).(draft := false,
                    prerelease := prerelease, published := time)]))
      ensures ok ==> id in s.releases && !s.releases[id].draft
      ensures alone && id in old(s.releases) && !faulted ==> ok
      ensures log == old(log) + [Undrafted(id, prerelease)] + Answer(ok) && (old(faulted) ==> faulted)
    {
      Others();
      ok := *;
      var applied: bool, time: Option<int> := *, *;
      if id !in s.releases {
        ok := false;
      } else {
        if ok || applied {
          s := s.(releases := s.releases[id := s.releases[id].(draft := false, prerelease := prerelease,
              published := time)]);
        }
        if !ok { faulted := true; }
      }
      log := log + [Undrafted(id, prerelease)] + Answer(ok);
    }

    /** PATCH releases/{id} with make_latest true. */
    method MakeLatest(id: int) returns (ok: bool)
      modifies this`s, this`log, this`faulted
      ensures Keeps(old(s.objects), s.objects)
      ensures alone ==> s == old(s) || (id in old(s.releases) && s == old(s).(latest := Some(id)))
      ensures ok ==> s.latest == Some(id)
      ensures alone && id in old(s.releases) && !faulted ==> ok
      ensures log == old(log) + [MadeLatest(id)] + Answer(ok) && (old(faulted) ==> faulted)
    {
      Others();
      ok := *;
      var applied: bool := *;
      if id !in s.releases {
        ok := false;
      } else {
        if ok || applied { s := s.(latest := Some(id)); }
        if !ok { faulted := true; }
      }
      log := log + [MadeLatest(id)] + Answer(ok);
    }

    /** GET releases/latest; not found when there is none. */
    method ReadLatest() returns (r: Result<Option<Release>, ()>)
      modifies this`s, this`faulted
      ensures Keeps(old(s.objects), s.objects)
      ensures alone ==> s == old(s)
      ensures r.Ok? ==> r.value == LatestRelease(s)
      ensures faulted == (old(faulted) || r.Err?)
    {
      Others();
      var fault: bool := *;
      if fault {
        faulted := true;
        return Err(());
      }
      r := Ok(LatestRelease(s));
    }

    /** The full paginated listing. */
    method ListAll() returns (r: Result<map<int, Release>, ()>)
      modifies this`s, this`faulted
      ensures Keeps(old(s.objects), s.objects)
      ensures alone ==> s == old(s)
      ensures r.Ok? ==> r.value == s.releases
      ensures faulted == (old(faulted) || r.Err?)
    {
      Others();
      var fault: bool := *;
      if fault {
        faulted := true;
        return Err(());
      }
      r := Ok(s.releases);
    }

    /** Whether a release reads as not found. */
    method ReleaseGone(id: int) returns (gone: bool)
      modifies this`s, this`log, this`faulted
      ensures alone ==> s == old(s)
      ensures Keeps(old(s.objects), s.objects)
      ensures gone ==> id !in s.releases
      ensures id !in s.releases && !faulted ==> gone
      ensures (old(faulted) ==> faulted) && log == if gone then old(log) + [Missing(id)] else old(log)
    {
      Others();
      var fault: bool := *;
      if fault { faulted := true; }
      gone := !fault && id !in s.releases;
      if gone { log := log + [Missing(id)]; }
    }

    /** DELETE of a release; one that is gone counts as deleted. */
    method DeleteRelease(id: int) returns (ok: bool)
      modifies this`s, this`log, this`faulted
      ensures Keeps(old(s.objects), s.objects)
      ensures alone ==> s == old(s) || s == old(s).(releases := old(s.releases) - {id})
      ensures ok ==> id !in s.releases
      ensures !faulted ==> ok
      ensures log == old(log) + [ReleaseDeleted(id)] + Answer(ok) && (old(faulted) ==> faulted)
    {
      Others();
      ok := *;
      var applied: bool := *;
      if ok || applied { s := s.(releases := s.releases - {id}); }
      if !ok { faulted := true; }
      log := log + [ReleaseDeleted(id)] + Answer(ok);
    }

    method DeleteRef(tag: Tag) returns (ok: bool)
      modifies this`s, this`log, this`faulted
      ensures Keeps(old(s.objects), s.objects)
      ensures alone ==> s == old(s) || s == old(s).(refs := old(s.refs) - {tag})
      ensures ok ==> tag !in s.refs
      ensures !faulted ==> ok
      ensures log == old(log) + [RefDeleted(tag)] + Answer(ok) && (old(faulted) ==> faulted)
    {
      Others();
      ok := *;
      var applied: bool := *;
      if ok || applied { s := s.(refs := s.refs - {tag}); }
      if !ok { faulted := true; }
      log := log + [RefDeleted(tag)] + Answer(ok);
    }

    /** release-publisher.py lines 120-131 and delete-preview.py lines 36-48. */
    method Peel(from: Object) returns (r: Result<Sha, ()>)
      modifies this`s, this`faulted
      ensures Keeps(old(s.objects), s.objects)
      ensures alone ==> s == old(s)
      ensures r.Ok? ==> Resolves(s.objects, from, r.value)
      ensures alone && r.Err? && !faulted ==> forall sha :: !Resolves(s.objects, from, sha)
      ensures old(faulted) ==> faulted
    {
      var obj := from;
      var seen: set<Sha> := {};
      ghost var path: seq<Object> := [];
      for depth := 0 to NESTING
        invariant (alone ==> s == old(s)) && Keeps(old(s.objects), s.objects)
        invariant old(faulted) ==> faulted
        invariant |path| == depth && seen == Visited(path)
        invariant Walked(s.objects, from, path, obj)
      {
        if !IsSha(obj.sha) || obj.sha in seen || obj.kind == Unsupported {
          DeadEnd(s.objects, from, path, obj);
          return Err(());
        }
        if obj.kind == Commit {
          Arrival(s.objects, from, path, obj);
          return Ok(obj.sha);
        }
        ghost var before := s.objects;
        var next := ReadObject(obj.sha);
        WalkLater(before, s.objects, from, path, obj);
        if next.Err? { return Err(()); }
        if next.value.None? {
          NoNext(s.objects, from, path, obj);
          return Err(());
        }
        WalkOn(s.objects, from, path, obj);
        seen := seen + {obj.sha};
        obj, path := next.value.value, path + [obj];
      }
      TooDeep(s.objects, from, path, obj);
      r := Err(());
    }

    /** The commit a tag names, if the tag exists. */
    method TagTarget(tag: Tag) returns (r: Result<Option<Sha>, ()>)
      modifies this`s, this`log, this`faulted
      ensures alone ==> s == old(s)
      ensures alone && r.Ok? ==> if r.value.Some? then TagIs(s, tag, r.value.value) else tag !in s.refs
      ensures alone && r.Err? && !faulted ==> tag in s.refs && forall sha :: !TagIs(s, tag, sha)
      ensures old(faulted) ==> faulted
      ensures Keeps(old(s.objects), s.objects) && OnlyRefs(old(log), log)
      ensures r.Ok? && r.value.Some? ==>
                |log| == |old(log)| + 1 && Shows(s.objects, log[|old(log)|], tag, r.value.value)
    {
      var ref := ReadRef(tag);
      if ref.Err? { return Err(()); }
      if ref.value.None? { return Ok(None); }
      var sha := Peel(ref.value.value);
      if sha.Err? { return Err(()); }
      r := Ok(Some(sha.value));
    }

    method TagStillIs(tag: Tag, commit: Sha) returns (ok: bool)
      modifies this`s, this`log, this`faulted
      ensures alone ==> s == old(s)
      ensures alone && (ok || !faulted) ==> (ok <==> TagIs(s, tag, commit))
      ensures old(faulted) ==> faulted
      ensures Keeps(old(s.objects), s.objects) && OnlyRefs(old(log), log)
      ensures ok ==> |log| == |old(log)| + 1 && Shows(s.objects, log[|old(log)|], tag, commit)
    {
      var target := TagTarget(tag);
      ok := target == Ok(Some(commit));
      if alone && target.Ok? && target.value.Some? && TagIs(s, tag, commit) {
        ResolvesUnique(s.objects, s.refs[tag], commit, target.value.value);
      }
    }
  }

  predicate Keeps(a: map<Sha, Object>, b: map<Sha, Object>) {
    forall h | h in a :: h in b && b[h] == a[h]
  }

  lemma ResolvesLater(a: map<Sha, Object>, b: map<Sha, Object>, from: Object, sha: Sha)
    requires Keeps(a, b) && Resolves(a, from, sha)
    ensures Resolves(b, from, sha)
  {
    var p :| Follows(a, from, p) && p[|p| - 1] == Object(sha, Commit);
    assert Follows(b, from, p);
  }

  /** A reading of the tag found a reference that leads to the commit. */
  ghost predicate Shows(objects: map<Sha, Object>, e: Event, tag: Tag, commit: Sha) {
    e.RefRead? && e.tag == tag && e.ref.Some? && Resolves(objects, e.ref.value, commit)
  }

  /** Only references were read after the requests `was`. */
  ghost predicate OnlyRefs(was: seq<Event>, now: seq<Event>) {
    was <= now && forall k | |was| <= k < |now| :: now[k].RefRead?
  }

  /** Nothing was made public. */
  ghost predicate NoUndraft(was: seq<Event>, now: seq<Event>) {
    was <= now && forall k | |was| <= k < |now| :: !now[k].Undrafted?
  }

  lemma NoneUndrafted(was: seq<Event>, mid: seq<Event>, now: seq<Event>)
    requires NoUndraft(was, mid) && NoUndraft(mid, now)
    ensures NoUndraft(was, now)
  {
    forall k | |was| <= k < |now| ensures !now[k].Undrafted? {
      if k < |mid| { assert now[k] == mid[k]; }
    }
  }

  ghost predicate Transfers(e: Event, tag: Tag) {
    e.ReleaseRead? || e == Checked(Bytes) || e == Refused || (e.Uploaded? && e.tag == tag)
  }

  /** Only uploads to the tag were requested, the bytes compared, and releases read. */
  ghost predicate OnlyUploads(was: seq<Event>, now: seq<Event>, tag: Tag) {
    was <= now && forall k | |was| <= k < |now| :: Transfers(now[k], tag)
  }

  lemma UploadsTogether(was: seq<Event>, mid: seq<Event>, now: seq<Event>, tag: Tag)
    requires OnlyUploads(was, mid, tag) && OnlyUploads(mid, now, tag)
    ensures OnlyUploads(was, now, tag)
  {
    forall k | |was| <= k < |now| ensures Transfers(now[k], tag) {
      if k < |mid| { assert now[k] == mid[k]; }
    }
  }

  /** The assets for which an upload was requested, in order. */
  ghost function Uploads(log: seq<Event>): seq<string> {
    if log == [] then []
    else Uploads(log[..|log| - 1]) + (if log[|log| - 1].Uploaded? then [log[|log| - 1].name] else [])
  }

  lemma OneMore(log: seq<Event>, e: Event)
    ensures Uploads(log + [e]) == Uploads(log) + (if e.Uploaded? then [e.name] else [])
  {
    assert (log + [e])[..|log|] == log;
  }

  /** `path` is a walk through annotated tags that arrives at `obj`. */
  ghost predicate Walked(objects: map<Sha, Object>, from: Object, path: seq<Object>, obj: Object) {
    && (path == [] ==> obj == from)
    && (path != [] ==> path[0] == from && path[|path| - 1].sha in objects && obj == objects[path[|path| - 1].sha])
    && (forall i | 0 <= i < |path| :: path[i].kind == Annotated && IsSha(path[i].sha))
    && (forall i | 0 <= i < |path| - 1 :: path[i].sha in objects && path[i + 1] == objects[path[i].sha])
    && (forall i, j | 0 <= i < j < |path| :: path[i].sha != path[j].sha)
  }

  ghost function Visited(path: seq<Object>): set<Sha> {
    set o | o in path :: o.sha
  }

  lemma WalkLater(a: map<Sha, Object>, b: map<Sha, Object>, from: Object, path: seq<Object>, obj: Object)
    requires Keeps(a, b) && Walked(a, from, path, obj)
    ensures Walked(b, from, path, obj)
  {
  }

  lemma WalkOn(objects: map<Sha, Object>, from: Object, path: seq<Object>, obj: Object)
    requires Walked(objects, from, path, obj) && IsSha(obj.sha) && obj.sha !in Visited(path) && obj.kind == Annotated
             && obj.sha in objects
    ensures Walked(objects, from, path + [obj], objects[obj.sha]) && Visited(path + [obj]) == Visited(path) + {obj.sha}
  {
    hide IsSha;
    assert forall o :: o in path + [obj] <==> o in path || o == obj;
    assert forall i | 0 <= i < |path| :: path[i].sha in Visited(path);
  }

  lemma Arrival(objects: map<Sha, Object>, from: Object, path: seq<Object>, obj: Object)
    requires Walked(objects, from, path, obj) && |path| < NESTING && IsSha(obj.sha) && obj.sha !in Visited(path)
             && obj.kind == Commit
    ensures Resolves(objects, from, obj.sha)
  {
    hide IsSha;
    var whole := path + [obj];
    assert forall i | 0 <= i < |path| :: path[i].sha in Visited(path);
    assert Follows(objects, from, whole);
    assert whole[|whole| - 1] == Object(obj.sha, Commit);
  }

  /** A path that resolves goes through every step of a walk. */
  lemma {:induction false} WalkPrefix(objects: map<Sha, Object>, from: Object, path: seq<Object>, obj: Object,
      p: seq<Object>, i: nat)
    requires Walked(objects, from, path, obj) && Follows(objects, from, p) && p[|p| - 1].kind == Commit
    requires i <= |path|
    ensures i < |p| && p[i] == (path + [obj])[i]
  {
    if i > 0 {
      WalkPrefix(objects, from, path, obj, p, i - 1);
      assert p[i - 1] == path[i - 1];
    }
  }

  lemma DeadEnd(objects: map<Sha, Object>, from: Object, path: seq<Object>, obj: Object)
    requires Walked(objects, from, path, obj)
    requires !IsSha(obj.sha) || obj.sha in Visited(path) || obj.kind == Unsupported
    ensures forall sha :: !Resolves(objects, from, sha)
  {
    forall sha
      ensures !Resolves(objects, from, sha)
    {
      if Resolves(objects, from, sha) {
        var p :| Follows(objects, from, p) && p[|p| - 1] == Object(sha, Commit);
        WalkPrefix(objects, from, path, obj, p, |path|);
        if obj.sha in Visited(path) {
          var o :| o in path && o.sha == obj.sha;
          var j :| 0 <= j < |path| && path[j] == o;
          WalkPrefix(objects, from, path, obj, p, j);
        }
        assert false;
      }
    }
  }

  lemma NoNext(objects: map<Sha, Object>, from: Object, path: seq<Object>, obj: Object)
    requires Walked(objects, from, path, obj) && obj.kind == Annotated && obj.sha !in objects
    ensures forall sha :: !Resolves(objects, from, sha)
  {
    forall sha
      ensures !Resolves(objects, from, sha)
    {
      if Resolves(objects, from, sha) {
        var p :| Follows(objects, from, p) && p[|p| - 1] == Object(sha, Commit);
        WalkPrefix(objects, from, path, obj, p, |path|);
        assert false;
      }
    }
  }

  lemma TooDeep(objects: map<Sha, Object>, from: Object, path: seq<Object>, obj: Object)
    requires Walked(objects, from, path, obj) && |path| == NESTING
    ensures forall sha :: !Resolves(objects, from, sha)
  {
    forall sha
      ensures !Resolves(objects, from, sha)
    {
      if Resolves(objects, from, sha) {
        var p :| Follows(objects, from, p) && p[|p| - 1] == Object(sha, Commit);
        WalkPrefix(objects, from, path, obj, p, |path|);
        assert false;
      }
    }
  }

  function Draft(id: int, tag: Tag, sha: Sha, prerelease: bool, body: string): Release {
    Release(id, tag, sha, true, prerelease, false, body, [], None)
  }

  function WithRow(r: Release, row: Row): Release { r.(assets := r.assets + [row]) }

  function LatestRelease(s: Store): Option<Release> {
    if s.latest.Some? && s.latest.value in s.releases then Some(s.releases[s.latest.value]) else None
  }

  /** `u` is `s` with one more row on a release of the tag. */
  predicate Added(s: Store, u: Store, tag: Tag, i: int, row: Row) {
    i in Tagged(s, tag) && u == s.(releases := s.releases[i := WithRow(s.releases[i], row)])
  }

  /** An upload reached a release of the tag, whole or in part. */
  ghost predicate Arrived(s: Store, u: Store, tag: Tag, name: string, size: int, digest: string, whole: bool) {
    exists i, row :: Added(s, u, tag, i, row)
      && if whole then row == Finished(row.id, name, size, digest) && NewId(s.releases[i].assets, row)
         else row.name == Some(name) && row.state != Some("uploaded")
  }

  function Finished(id: Option<int>, name: string, size: int, digest: string): Row {
    Row(Some(name), id, Some(size), Some(digest), Some("uploaded"))
  }

  /** An asset number the release has not used. */
  predicate NewId(rows: seq<Row>, row: Row) {
    row.id.Some? && row.id.value > 0 && forall r | r in rows :: r.id != row.id
  }
}
