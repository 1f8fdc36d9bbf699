/** scripts/release-publisher.py lines 15-16 and 170-172: the grammar of Stable tags. */
module Versions {
  import opened Outcomes

  /** A Stable tag as a unit and three numbers; the unit is empty outside guest-runtime. */
  datatype Version = Version(unit: string, major: nat, minor: nat, patch: nat)

  predicate IsUnit(unit: string) { unit == "" || unit == "runtime" || unit == "vmlinux" }

  function Prefix(unit: string): string { if unit == "" then "" else unit + "-" }

  predicate Digit(c: char) { '0' <= c <= '9' }

  predicate Digits(d: string) { forall i | 0 <= i < |d| :: Digit(d[i]) }

  /** 0|[1-9][0-9]* */
  predicate Numeral(d: string) { |d| > 0 && Digits(d) && (|d| > 1 ==> d[0] != '0') }

  function Value(d: string): nat
    requires Digits(d)
  {
    if d == [] then 0 else Value(d[..|d| - 1]) * 10 + (d[|d| - 1] as int - '0' as int)
  }

  function Decimal(n: nat): string {
    if n < 10 then [('0' as int + n) as char] else Decimal(n / 10) + [('0' as int + n % 10) as char]
  }

  lemma {:induction false} DecimalIsNumeral(n: nat)
    ensures Numeral(Decimal(n)) && Value(Decimal(n)) == n
    ensures n > 0 ==> Decimal(n)[0] != '0'
  {
    if n < 10 {
      assert Decimal(n)[..0] == [];
    } else {
      DecimalIsNumeral(n / 10);
      assert Decimal(n)[..|Decimal(n)| - 1] == Decimal(n / 10);
    }
  }

  lemma {:induction false} NumeralIsDecimal(d: string)
    requires Numeral(d)
    ensures Decimal(Value(d)) == d && (d[0] != '0' ==> Value(d) > 0)
  {
    var init := d[..|d| - 1];
    if |d| == 1 {
      assert init == [] && Value(d) < 10;
    } else {
      NumeralIsDecimal(init);
      assert Value(d) / 10 == Value(init) && Value(d) >= 10;
      assert d == init + [d[|d| - 1]];
    }
  }

  /** A leading zero would let two spellings share a value: the grammar has to refuse it. */
  lemma {:induction false} LeadingZeroCollides(d: string)
    requires Digits(d)
    ensures Digits("0" + d) && Value("0" + d) == Value(d)
  {
    var z := "0" + d;
    if d == [] {
      assert z[..0] == [];
    } else {
      LeadingZeroCollides(d[..|d| - 1]);
      assert z[..|z| - 1] == "0" + d[..|d| - 1];
    }
  }

  /** Where the first '.' stands, or the length. */
  function Dot(s: string): (i: nat)
    ensures i <= |s| && '.' !in s[..i] && (i < |s| ==> s[i] == '.')
  {
    if s == [] || s[0] == '.' then 0
    else
      var i := Dot(s[1..]);
      assert s[..i + 1] == [s[0]] + s[1..][..i];
      i + 1
  }

  /** The three numbers of `a.b.c`. */
  function Triple(unit: string, s: string): Option<Version> {
    var i := Dot(s);
    if i == |s| then None
    else
      var rest := s[i + 1..];
      var j := Dot(rest);
      if j == |rest| then None
      else
        var a, b, c := s[..i], rest[..j], rest[j + 1..];
        if Numeral(a) && Numeral(b) && Numeral(c) then Some(Version(unit, Value(a), Value(b), Value(c))) else None
  }

  function UnitOf(tag: string): (unit: string)
    ensures IsUnit(unit) && Prefix(unit) <= tag
  {
    if "runtime-" <= tag then "runtime" else if "vmlinux-" <= tag then "vmlinux" else ""
  }

  function StableVersion(tag: string): Option<Version> {
    var rest := tag[|Prefix(UnitOf(tag))|..];
    if rest == [] || rest[0] != 'v' then None else Triple(UnitOf(tag), rest[1..])
  }

  function Joined(a: string, b: string): string { a + (['.'] + b) }

  function PrintTriple(v: Version): string {
    Joined(Decimal(v.major), Joined(Decimal(v.minor), Decimal(v.patch)))
  }

  function Print(v: Version): string { Prefix(v.unit) + ("v" + PrintTriple(v)) }

  lemma {:induction false} SplitJoined(a: string, b: string)
    requires '.' !in a
    ensures Dot(Joined(a, b)) == |a| < |Joined(a, b)| && Joined(a, b)[..|a|] == a && Joined(a, b)[|a| + 1..] == b
  {
    if a == [] {
      assert Joined(a, b)[0] == '.';
    } else {
      SplitJoined(a[1..], b);
      assert Joined(a, b)[1..] == Joined(a[1..], b);
    }
  }

  lemma SplitAt(s: string, d: nat)
    requires d < |s|
    ensures s == s[..d] + ([s[d]] + s[d + 1..])
  {
  }

  lemma JoinSplit(s: string)
    requires Dot(s) < |s|
    ensures s == Joined(s[..Dot(s)], s[Dot(s) + 1..])
  {
    SplitAt(s, Dot(s));
  }

  lemma NumeralHasNoDot(d: string)
    requires Numeral(d)
    ensures '.' !in d
  {
    assert forall i | 0 <= i < |d| :: Digit(d[i]);
  }

  lemma TriplePrinted(v: Version)
    ensures Triple(v.unit, PrintTriple(v)) == Some(v)
  {
    var a, b, c := Decimal(v.major), Decimal(v.minor), Decimal(v.patch);
    DecimalIsNumeral(v.major);
    DecimalIsNumeral(v.minor);
    DecimalIsNumeral(v.patch);
    NumeralHasNoDot(a);
    NumeralHasNoDot(b);
    SplitJoined(a, Joined(b, c));
    SplitJoined(b, c);
  }

  lemma TripleParsed(unit: string, s: string)
    requires Triple(unit, s).Some?
    ensures Triple(unit, s).value.unit == unit && PrintTriple(Triple(unit, s).value) == s
  {
    var i := Dot(s);
    var rest := s[i + 1..];
    var j := Dot(rest);
    NumeralIsDecimal(s[..i]);
    NumeralIsDecimal(rest[..j]);
    NumeralIsDecimal(rest[j + 1..]);
    JoinSplit(s);
    JoinSplit(rest);
  }

  lemma UnitPrinted(v: Version)
    requires IsUnit(v.unit)
    ensures UnitOf(Print(v)) == v.unit && Print(v)[|Prefix(v.unit)|..] == "v" + PrintTriple(v)
  {
    DecimalIsNumeral(v.major);
    assert Digit(Decimal(v.major)[0]);
    assert ("v" + PrintTriple(v))[1] == Decimal(v.major)[0];
    if v.unit == "" {
      assert Print(v) == "v" + PrintTriple(v);
      assert "vmlinux-"[1] == 'm' && "runtime-"[0] == 'r';
    } else {
      assert Prefix(v.unit) <= Print(v);
      assert Prefix(v.unit)[0] == v.unit[0] == Print(v)[0];
      assert "runtime-"[0] == 'r';
    }
  }

  /** The parser undoes the printer on every version of unbounded size. */
  lemma ParsePrinted(v: Version)
    requires IsUnit(v.unit)
    ensures StableVersion(Print(v)) == Some(v)
  {
    UnitPrinted(v);
    TriplePrinted(v);
    assert ("v" + PrintTriple(v))[1..] == PrintTriple(v);
  }

  /** And the printer undoes the parser, so a tag is Stable exactly when some version prints it,
      and no two tags stand for one version. */
  lemma PrintParsed(tag: string)
    requires StableVersion(tag).Some?
    ensures IsUnit(StableVersion(tag).value.unit) && Print(StableVersion(tag).value) == tag
  {
    var unit := UnitOf(tag);
    var rest := tag[|Prefix(unit)|..];
    TripleParsed(unit, rest[1..]);
    Reassembled(tag, Prefix(unit), rest);
  }

  lemma Reassembled(tag: string, prefix: string, rest: string)
    requires prefix <= tag && rest == tag[|prefix|..] && rest != "" && rest[0] == 'v'
    ensures prefix + ("v" + rest[1..]) == tag
  {
    assert rest == "v" + rest[1..];
  }

  lemma StableIffPrinted(tag: string)
    ensures StableVersion(tag).Some? <==> exists v: Version :: IsUnit(v.unit) && tag == Print(v)
    ensures forall v: Version | IsUnit(v.unit) && tag == Print(v) :: StableVersion(tag) == Some(v)
  {
    forall v: Version | IsUnit(v.unit) && tag == Print(v)
      ensures StableVersion(tag) == Some(v)
    {
      ParsePrinted(v);
    }
    if StableVersion(tag).Some? { PrintParsed(tag); }
  }

  /** Python's comparison of the two triples. */
  predicate Higher(a: Version, b: Version) {
    a.major > b.major || (a.major == b.major && (a.minor > b.minor || (a.minor == b.minor && a.patch > b.patch)))
  }

  ghost function Parts(v: Version): seq<nat> { [v.major, v.minor, v.patch] }

  /** At the first place where the numbers differ, `a` has the larger one. */
  ghost predicate Above(a: Version, b: Version) {
    exists k | 0 <= k < 3 :: Parts(a)[..k] == Parts(b)[..k] && Parts(a)[k] > Parts(b)[k]
  }

  lemma HigherIsAbove(a: Version, b: Version)
    ensures Higher(a, b) <==> Above(a, b)
  {
    var p, q := Parts(a), Parts(b);
    assert p[..0] == q[..0];
    assert p[..1] == [a.major] && q[..1] == [b.major];
    assert p[..2] == [a.major, a.minor] && q[..2] == [b.major, b.minor];
    if Higher(a, b) {
      var k := if a.major > b.major then 0 else if a.minor > b.minor then 1 else 2;
      assert p[..k] == q[..k] && p[k] > q[k];
    }
    if Above(a, b) {
      var k :| 0 <= k < 3 && p[..k] == q[..k] && p[k] > q[k];
      assert k == 0 || k == 1 || k == 2;
    }
  }

  ghost predicate AboveTag(s: string, t: string)
    requires StableVersion(s).Some? && StableVersion(t).Some?
  {
    Above(StableVersion(s).value, StableVersion(t).value)
  }

  lemma VersionsOrdered(a: Version, b: Version, c: Version)
    ensures !(Above(a, b) && Above(b, a))
    ensures a.unit == b.unit && !Above(a, b) && !Above(b, a) ==> a == b
    ensures !Above(a, a) && (Above(a, b) && Above(b, c) ==> Above(a, c))
  {
    HigherIsAbove(a, b);
    HigherIsAbove(b, a);
    HigherIsAbove(a, a);
    HigherIsAbove(b, c);
    HigherIsAbove(a, c);
  }

  /** The Stable tags of one unit stand in a strict total order. */
  lemma TagsOrdered(s: string, t: string, u: string)
    requires StableVersion(s).Some? && StableVersion(t).Some? && StableVersion(u).Some?
    requires StableVersion(s).value.unit == StableVersion(t).value.unit
    ensures s == t <==> !AboveTag(s, t) && !AboveTag(t, s)
    ensures !(AboveTag(s, t) && AboveTag(t, s))
    ensures AboveTag(s, t) && AboveTag(t, u) ==> AboveTag(s, u)
  {
    PrintParsed(s);
    PrintParsed(t);
    VersionsOrdered(StableVersion(s).value, StableVersion(t).value, StableVersion(u).value);
  }
}
