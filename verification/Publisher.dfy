/** scripts/release-publisher.py: publish one validated bundle as a release. */
module Publisher {
  import opened Outcomes
  import opened GitHub
  import opened Requests

  /** What `local_assets` records of a validated file; its state is always "uploaded". */
  datatype Asset = Asset(size: int, digest: string)

  /** One publication: the tag, its commit, the notes and the validated bytes. */
  datatype Plan = Plan(tag: Tag, commit: Sha, prerelease: bool, notes: string, expected: map<string, Asset>)
  {
    predicate Valid() {
      IsSha(commit) && Sized()
    }

    predicate Sized() {
      forall n | n in expected :: expected[n].size > 0
    }
  }

  datatype Identity = Identity(id: int, asset: Asset)

  /** The row is finished and stands for an expected asset with its size and digest. */
  ghost predicate Genuine(row: Row, expected: map<string, Asset>) {
    && row.name.Some? && row.name.value in expected && row.id.Some? && row.id.value > 0
    && var asset := expected[row.name.value];
       asset.size > 0 && row == Row(row.name, row.id, Some(asset.size), Some(asset.digest), Some("uploaded"))
  }

  /** Lines 139-144 for one row. */
  predicate RowOk(row: Row, expected: map<string, Asset>): (ok: bool)
    ensures ok <==> Genuine(row, expected)
  {
    && row.name.Some? && row.name.value in expected && row.id.Some? && row.id.value > 0
    && row.size.Some? && row.size.value > 0
    && row.size == Some(expected[row.name.value].size)
    && row.digest == Some(expected[row.name.value].digest)
    && row.state == Some("uploaded")
  }

  function IdentityOf(row: Row, expected: map<string, Asset>): Identity
    requires RowOk(row, expected)
  {
    Identity(row.id.value, expected[row.name.value])
  }

  predicate Agrees(row: Row, expected: map<string, Asset>, known: map<string, Identity>) {
    RowOk(row, expected) && (row.name.value in known ==> known[row.name.value] == IdentityOf(row, expected))
  }

  ghost predicate Distinct(rows: seq<Row>) {
    forall i, j | 0 <= i < j < |rows| :: rows[i].name != rows[j].name && rows[i].id != rows[j].id
  }

  ghost predicate Acceptable(rows: seq<Row>, expected: map<string, Asset>) {
    (forall i | 0 <= i < |rows| :: Genuine(rows[i], expected)) && Distinct(rows)
  }

  ghost function Names(rows: seq<Row>): set<string> {
    set r | r in rows && r.name.Some? :: r.name.value
  }

  /** One row has the name, and that row is finished with the size and the digest. */
  ghost predicate Holds(rows: seq<Row>, name: string, size: int, digest: string) {
    exists k | 0 <= k < |rows| ::
      && rows[k].name == Some(name) && rows[k].size == Some(size) && rows[k].digest == Some(digest)
      && rows[k].state == Some("uploaded") && forall j | 0 <= j < |rows| && rows[j].name == Some(name) :: j == k
  }

  /** Every expected asset is held by just one row, whole, and there is no other row. */
  ghost predicate Carries(rows: seq<Row>, expected: map<string, Asset>) {
    && (forall n | n in expected :: Holds(rows, n, expected[n].size, expected[n].digest))
    && forall k | 0 <= k < |rows| :: rows[k].name.Some? && rows[k].name.value in expected
  }

  /** The rows have numbers of their own. */
  ghost predicate Numbered(rows: seq<Row>) {
    && (forall k | 0 <= k < |rows| :: rows[k].id.Some? && rows[k].id.value > 0)
    && forall j, k | 0 <= j < k < |rows| :: rows[j].id != rows[k].id
  }

  /** All expected assets and nothing else. */
  ghost predicate Exactly(rows: seq<Row>, expected: map<string, Asset>) {
    Carries(rows, expected) && Numbered(rows)
  }

  /** What the script looks for row by row is what a whole release is. */
  lemma ExactlyIff(rows: seq<Row>, expected: map<string, Asset>)
    requires forall n | n in expected :: expected[n].size > 0
    ensures Exactly(rows, expected) <==> Acceptable(rows, expected) && Names(rows) == expected.Keys
  {
    if Exactly(rows, expected) { CarriesAcceptable(rows, expected); }
    if Acceptable(rows, expected) && Names(rows) == expected.Keys { AcceptableCarries(rows, expected); }
  }

  lemma CarriesAcceptable(rows: seq<Row>, expected: map<string, Asset>)
    requires (forall n | n in expected :: expected[n].size > 0) && Exactly(rows, expected)
    ensures Acceptable(rows, expected) && Names(rows) == expected.Keys
  {
    forall i | 0 <= i < |rows|
      ensures Genuine(rows[i], expected) && forall j | 0 <= j < |rows| && rows[j].name == rows[i].name :: j == i
    {
      var n := rows[i].name.value;
      assert Holds(rows, n, expected[n].size, expected[n].digest);
    }
    forall n | n in expected
      ensures n in Names(rows)
    {
      assert Holds(rows, n, expected[n].size, expected[n].digest);
    }
  }

  lemma AcceptableCarries(rows: seq<Row>, expected: map<string, Asset>)
    requires Acceptable(rows, expected) && Names(rows) == expected.Keys
    ensures Exactly(rows, expected)
  {
    forall n | n in expected
      ensures Holds(rows, n, expected[n].size, expected[n].digest)
    {
      assert n in Names(rows);
      var r :| r in rows && r.name == Some(n);
      var k :| 0 <= k < |rows| && rows[k] == r;
      assert Genuine(rows[k], expected);
    }
    forall k | 0 <= k < |rows|
      ensures rows[k].name.Some? && rows[k].name.value in expected && rows[k].id.Some? && rows[k].id.value > 0
    {
      assert Genuine(rows[k], expected);
    }
  }

  /** A row that is not a finished copy of an expected asset, or shares its name or number. */
  ghost predicate Odd(rows: seq<Row>, k: nat, expected: map<string, Asset>)
    requires k < |rows|
  {
    || rows[k].name.None? || rows[k].name.value !in expected || rows[k].state != Some("uploaded")
    || rows[k].size != Some(expected[rows[k].name.value].size)
    || rows[k].digest != Some(expected[rows[k].name.value].digest)
    || rows[k].id.None? || rows[k].id.value <= 0
    || exists j | 0 <= j < |rows| && j != k :: rows[j].name == rows[k].name || rows[j].id == rows[k].id
  }

  ghost predicate Spoiled(rows: seq<Row>, expected: map<string, Asset>) {
    exists k: nat | k < |rows| :: Odd(rows, k, expected)
  }

  lemma SpoiledIff(rows: seq<Row>, expected: map<string, Asset>)
    requires forall n | n in expected :: expected[n].size > 0
    ensures Spoiled(rows, expected) <==> !Acceptable(rows, expected)
  {
    if !Spoiled(rows, expected) {
      forall i | 0 <= i < |rows|
        ensures Genuine(rows[i], expected)
      {
        assert !Odd(rows, i, expected);
      }
      forall i, j | 0 <= i < j < |rows|
        ensures rows[i].name != rows[j].name && rows[i].id != rows[j].id
      {
        assert !Odd(rows, i, expected);
      }
    } else {
      var k: nat :| k < |rows| && Odd(rows, k, expected);
      assert Acceptable(rows, expected) ==> Genuine(rows[k], expected);
    }
  }

  ghost predicate AllAgree(rows: seq<Row>, expected: map<string, Asset>, known: map<string, Identity>) {
    forall i | 0 <= i < |rows| :: Agrees(rows[i], expected, known)
  }

  /** The identities recorded of acceptable rows. */
  ghost predicate Records(m: map<string, Identity>, rows: seq<Row>, expected: map<string, Asset>) {
    && m.Keys == Names(rows)
    && forall i | 0 <= i < |rows| ::
         && Genuine(rows[i], expected) && rows[i].name.value in m
         && m[rows[i].name.value] == Identity(rows[i].id.value, Asset(rows[i].size.value, rows[i].digest.value))
  }

  ghost predicate DistinctIds(m: map<string, Identity>) {
    forall a, b | a in m && b in m && a != b :: m[a].id != m[b].id
  }

  /** One more row keeps the record exact. */
  lemma RecordRow(m: map<string, Identity>, rows: seq<Row>, row: Row, expected: map<string, Asset>)
    requires Records(m, rows, expected) && RowOk(row, expected) && row.name.value !in m
    ensures Records(m[row.name.value := IdentityOf(row, expected)], rows + [row], expected)
  {
    var all, n := rows + [row], m[row.name.value := IdentityOf(row, expected)];
    forall x
      ensures x in n.Keys <==> x in Names(all)
    {
      if x in Names(rows) {
        var r :| r in rows && r.name == Some(x);
        assert r in all;
      }
      if x == row.name.value { assert row in all; }
      if x in Names(all) {
        var r :| r in all && r.name == Some(x);
        assert r in rows || r == row;
      }
    }
  }

  lemma RecordedIdsDiffer(m: map<string, Identity>, rows: seq<Row>, expected: map<string, Asset>)
    requires Records(m, rows, expected) && Distinct(rows)
    ensures DistinctIds(m)
  {
    forall a, b | a in m && b in m && a != b
      ensures m[a].id != m[b].id
    {
      var r :| r in rows && r.name == Some(a);
      var q :| q in rows && q.name == Some(b);
      var i :| 0 <= i < |rows| && rows[i] == r;
      var j :| 0 <= j < |rows| && rows[j] == q;
    }
  }

  /** A repeated name or number spoils the whole list. */
  lemma Repeated(m: map<string, Identity>, rows: seq<Row>, i: nat, expected: map<string, Asset>)
    requires i < |rows| && Records(m, rows[..i], expected) && rows[i].name.Some?
    requires rows[i].name.value in m || exists j | 0 <= j < i :: rows[j].id == rows[i].id
    ensures !Distinct(rows)
  {
    if rows[i].name.value in m {
      var r :| r in rows[..i] && r.name == rows[i].name;
      var j :| 0 <= j < i && rows[j] == r;
    }
  }

  /** One more row with a new name and a new number. */
  lemma OneMoreRow(rows: seq<Row>, row: Row, expected: map<string, Asset>, known: map<string, Identity>)
    requires Acceptable(rows, expected) && AllAgree(rows, expected, known) && Agrees(row, expected, known)
    requires forall j | 0 <= j < |rows| :: rows[j].name != row.name && rows[j].id != row.id
    ensures Acceptable(rows + [row], expected) && AllAgree(rows + [row], expected, known)
  {
    var all := rows + [row];
    forall i | 0 <= i < |all| ensures Agrees(all[i], expected, known) {
      if i < |rows| { assert Agrees(rows[i], expected, known); }
    }
  }

  /** Lines 134-152. Accepts exactly the acceptable rows that agree with every identity known
      so far; a refusal records nothing. */
  method RemoteAssets(rows: seq<Row>, expected: map<string, Asset>, complete: bool, known: map<string, Identity>)
    returns (observed: Result<map<string, Identity>, ()>)
    ensures observed.Ok? <==> Acceptable(rows, expected) && AllAgree(rows, expected, known)
                              && (complete ==> Names(rows) == expected.Keys) && known.Keys <= Names(rows)
    ensures observed.Ok? ==> Records(observed.value, rows, expected) && DistinctIds(observed.value)
                             && forall n | n in known :: n in observed.value && observed.value[n] == known[n]
  {
    hide Carries;
    var seen: map<string, Identity> := map[];
    var ids: set<int> := {};
    for i := 0 to |rows|
      invariant Acceptable(rows[..i], expected) && AllAgree(rows[..i], expected, known)
                && Records(seen, rows[..i], expected)
      invariant forall x | x in ids :: exists j | 0 <= j < i :: rows[j].id == Some(x)
      invariant forall j | 0 <= j < i :: rows[j].id.Some? && rows[j].id.value in ids
    {
      var row := rows[i];
      assert rows[..i + 1] == rows[..i] + [row];
      if !Agrees(row, expected, known) { return Err(()); }
      if row.name.value in seen || row.id.value in ids {
        Repeated(seen, rows, i, expected);
        return Err(());
      }
      forall j | 0 <= j < i ensures rows[..i][j].name != row.name {
        assert rows[..i][j].name.value in seen;
      }
      OneMoreRow(rows[..i], row, expected, known);
      RecordRow(seen, rows[..i], row, expected);
      seen := seen[row.name.value := IdentityOf(row, expected)];
      ids := ids + {row.id.value};
    }
    assert rows[..|rows|] == rows;
    if complete && seen.Keys != expected.Keys { return Err(()); }
    if !(known.Keys <= seen.Keys) { return Err(()); }
    RecordedIdsDiffer(seen, rows, expected);
    KnownKept(seen, rows, expected, known);
    observed := Ok(seen);
  }

  lemma KnownKept(m: map<string, Identity>, rows: seq<Row>, expected: map<string, Asset>, known: map<string, Identity>)
    requires Records(m, rows, expected) && AllAgree(rows, expected, known) && known.Keys <= Names(rows)
    ensures forall n | n in known :: n in m && m[n] == known[n]
  {
    forall n | n in known
      ensures n in m && m[n] == known[n]
    {
      assert n in Names(rows);
      var r :| r in rows && r.name == Some(n);
      var i :| 0 <= i < |rows| && rows[i] == r;
    }
  }
}
