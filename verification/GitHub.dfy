/** The remote store that the release scripts drive: references, tag objects, releases with
    their assets, and the Latest pointer. */
module GitHub {
  import opened Outcomes

  type Sha = string
  type Tag = string

  datatype ObjectKind = Commit | Annotated | Unsupported

  /** The `object` of a reference or of an annotated tag. */
  datatype Object = Object(sha: Sha, kind: ObjectKind)

  /** An asset row as listed; a missing field, or one of another JSON type, reads as None. */
  datatype Row = Row(name: Option<string>, id: Option<int>, size: Option<int>, digest: Option<string>,
      state: Option<string>)

  datatype Release = Release(id: int, tagName: Tag, target: Sha, draft: bool, prerelease: bool, immutable: bool,
                             body: string, assets: seq<Row>, published: Option<int>)

  datatype Store = Store(refs: map<Tag, Object>, objects: map<Sha, Object>, releases: map<int, Release>,
      latest: Option<int>)

  /** The releases that carry a tag. */
  function Tagged(s: Store, tag: Tag): set<int> {
    set i | i in s.releases && s.releases[i].tagName == tag
  }

  /** Nothing the remote lists is out of step with its own number. */
  ghost predicate Consistent(s: Store) {
    forall i | i in s.releases :: s.releases[i].id == i
  }

  predicate IsSha(s: string) {
    |s| == 40 && forall c | c in s :: '0' <= c <= '9' || 'a' <= c <= 'f'
  }

  /** Forty lower-case hexadecimal digits. */
  lemma IsShaIff(s: string)
    ensures IsSha(s) <==> |s| == 40 && forall k | 0 <= k < 40 :: s[k] in "0123456789abcdef"
  {
    HexDigits();
    assert forall k | 0 <= k < |s| :: s[k] in s;
  }

  lemma HexDigits()
    ensures forall c :: c in "0123456789abcdef" <==> '0' <= c <= '9' || 'a' <= c <= 'f'
  {
    var digits := "0123456789abcdef";
    forall c
      ensures c in digits <==> '0' <= c <= '9' || 'a' <= c <= 'f'
    {
      if '0' <= c <= '9' { assert digits[c as int - '0' as int] == c; }
      if 'a' <= c <= 'f' { assert digits[c as int - 'a' as int + 10] == c; }
    }
  }

  const NESTING: nat := 16

  /** `path` starts at `from` and follows tag objects one by one. */
  ghost predicate Follows(objects: map<Sha, Object>, from: Object, path: seq<Object>) {
    && 0 < |path| <= 16 && path[0] == from
    && (forall i | 0 <= i < |path| - 1 ::
         path[i].kind == Annotated && path[i].sha in objects && path[i + 1] == objects[path[i].sha])
    && (forall i | 0 <= i < |path| :: IsSha(path[i].sha))
    && (forall i, j | 0 <= i < j < |path| :: path[i].sha != path[j].sha)
  }

  /** `from` leads to the commit `sha` through at most fifteen annotated tags. */
  ghost predicate Resolves(objects: map<Sha, Object>, from: Object, sha: Sha) {
    exists path :: Follows(objects, from, path) && path[|path| - 1] == Object(sha, Commit)
  }

  ghost predicate TagIs(s: Store, tag: Tag, sha: Sha) {
    tag in s.refs && Resolves(s.objects, s.refs[tag], sha)
  }

  /** Two paths from one object agree as far as both go. */
  lemma {:induction false} FollowsUnique(objects: map<Sha, Object>, from: Object, p: seq<Object>, q: seq<Object>,
      i: nat)
    requires Follows(objects, from, p) && Follows(objects, from, q) && i < |p| && i < |q|
    ensures p[i] == q[i]
  {
    if i > 0 { FollowsUnique(objects, from, p, q, i - 1); }
  }

  /** So a reference resolves to at most one commit. */
  lemma ResolvesUnique(objects: map<Sha, Object>, from: Object, a: Sha, b: Sha)
    requires Resolves(objects, from, a) && Resolves(objects, from, b)
    ensures a == b
  {
    var p :| Follows(objects, from, p) && p[|p| - 1] == Object(a, Commit);
    var q :| Follows(objects, from, q) && q[|q| - 1] == Object(b, Commit);
    if |p| < |q| {
      FollowsUnique(objects, from, p, q, |p| - 1);
    } else if |q| < |p| {
      FollowsUnique(objects, from, p, q, |q| - 1);
    } else {
      FollowsUnique(objects, from, p, q, |p| - 1);
    }
  }

  /** Where every object is named with one kind only, a walk that reaches a commit never meets
      a name twice: the `seen` check refuses nothing that the depth limit would accept. */
  lemma {:induction false} SeenIsRedundant(objects: map<Sha, Object>, kindOf: Sha -> ObjectKind, path: seq<Object>,
      i: nat, j: nat)
    requires forall s | s in objects :: objects[s].kind == kindOf(objects[s].sha)
    requires 0 < |path| && path[0].kind == kindOf(path[0].sha)
    requires forall k | 0 <= k < |path| - 1 ::
              path[k].kind == Annotated && path[k].sha in objects && path[k + 1] == objects[path[k].sha]
    requires path[|path| - 1].kind == Commit && i < j < |path|
    ensures path[i].sha != path[j].sha
    decreases |path| - j
  {
    forall k | 0 <= k < |path|
      ensures path[k].kind == kindOf(path[k].sha)
    {
      if k > 0 { assert path[k] == objects[path[k - 1].sha]; }
    }
    if path[i].sha == path[j].sha && j < |path| - 1 {
      assert path[i + 1] == path[j + 1];
      SeenIsRedundant(objects, kindOf, path, i + 1, j + 1);
    }
  }

  lemma DirectTag(s: Store, tag: Tag, sha: Sha)
    requires tag in s.refs && s.refs[tag] == Object(sha, Commit) && IsSha(sha)
    ensures TagIs(s, tag, sha)
  {
    assert Follows(s.objects, s.refs[tag], [s.refs[tag]]);
  }
}
