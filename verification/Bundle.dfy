/** internal/runtimebundle/bundle.go and scripts/release-runtime-payloads.py lines 26-61: a raw
    image, padding, and a ZIP trailer that names the digest of both; and the independent check. */
module Bundle {
  import opened Outcomes
  import opened Bytes

  const ALIGNMENT: nat := 2097152

  /** bundle.go lines 132-134. */
  function AlignUp(n: nat): (m: nat)
    ensures n <= m < n + ALIGNMENT && m % ALIGNMENT == 0
  {
    if n % ALIGNMENT == 0 then n else n + ALIGNMENT - n % ALIGNMENT
  }

  lemma AlignUpIsRounding(n: nat)
    ensures AlignUp(n) == (n + ALIGNMENT - 1) / ALIGNMENT * ALIGNMENT
  {
    assert (n + ALIGNMENT - 1) / ALIGNMENT == if n % ALIGNMENT == 0 then n / ALIGNMENT else n / ALIGNMENT + 1;
  }

  // Little-endian numbers, as Go writes them and Python's struct reads them.

  function Low(n: nat): byte { n % 256 }

  function High(n: nat): byte { n / 256 % 256 }

  function U2(s: Bytes, i: nat): nat
    requires i + 2 <= |s|
  {
    var hi: int := s[i + 1];
    s[i] + 256 * hi
  }

  function U4(s: Bytes, i: nat): nat
    requires i + 4 <= |s|
  {
    U2(s, i) + 65536 * U2(s, i + 2)
  }

  const LOCAL_SIGNATURE: nat := 0x04034b50
  const CENTRAL_SIGNATURE: nat := 0x02014b50
  const END_SIGNATURE: nat := 0x06054b50
  const LOCATOR_SIGNATURE: nat := 0x07064b50
  /** 1 January 1980 */
  const EPOCH_DATE: nat := 0x21

  /** ".kuasar.digest." */
  const MARKER_PREFIX: Bytes := [46, 107, 117, 97, 115, 97, 114, 46, 100, 105, 103, 101, 115, 116, 46]

  function HexLower(s: Bytes): (h: Bytes)
    ensures |h| == 2 * |s|
  {
    if s == [] then [] else [HexDigit(s[0] / 16), HexDigit(s[0] % 16)] + HexLower(s[1..])
  }

  ghost predicate HexByte(b: byte) { 48 <= b <= 57 || 97 <= b <= 102 }

  lemma {:induction false} HexLowerBytes(s: Bytes)
    ensures forall i | 0 <= i < |HexLower(s)| :: HexByte(HexLower(s)[i])
  {
    if s != [] { HexLowerBytes(s[1..]); }
  }

  // What archive/zip writes for one empty stored file, bundle.go lines 111-130.

  /** Section 4.3.7 of APPNOTE: version 20, a data descriptor follows, stored, 1980-01-01. */
  function LocalHeader(name: nat, extra: nat): (s: Bytes)
    ensures |s| == 30
  {
    [0x50, 0x4b, 3, 4, 20, 0, 8, 0, 0, 0, 0, 0, 0x21, 0, 0, 0, 0, 0, 0, 0, 0, 0, 0, 0, 0, 0,
     Low(name), High(name), Low(extra), High(extra)]
  }

  /** Section 4.3.9: no bytes, checksum 0. */
  const DESCRIPTOR: Bytes := [0x50, 0x4b, 7, 8, 0, 0, 0, 0, 0, 0, 0, 0, 0, 0, 0, 0]

  /** Section 4.3.12: made by Unix 2.0, mode 0100444 and the read-only bit, at offset 0. */
  function CentralHeader(name: nat, extra: nat): (s: Bytes)
    ensures |s| == 46
  {
    CENTRAL_FRONT + CentralBack(name, extra)
  }

  const CENTRAL_FRONT: Bytes := [0x50, 0x4b, 1, 2, 20, 3, 20, 0, 8, 0, 0, 0, 0, 0, 0x21, 0, 0, 0, 0, 0, 0, 0, 0, 0, 0,
      0, 0, 0]

  function CentralBack(name: nat, extra: nat): (s: Bytes)
    ensures |s| == 18
  {
    [Low(name), High(name), Low(extra), High(extra), 0, 0, 0, 0, 0, 0, 1, 0, 0x24, 0x81, 0, 0, 0, 0]
  }

  /** Section 4.3.16: one entry on one disk, no comment. */
  function EndRecord(size: nat, offset: nat): (s: Bytes)
    ensures |s| == 22
  {
    [0x50, 0x4b, 5, 6, 0, 0, 0, 0, 1, 0, 1, 0, Low(size), High(size), 0, 0, Low(offset), High(offset), 0, 0, 0, 0]
  }

  /** The extended timestamp 315532800 as an extra field. */
  const TIMESTAMP: Bytes := [0x55, 0x54, 5, 0, 1, 0, 0xa6, 0xce, 0x12]

  function LocalPart(name: Bytes, extra: Bytes): Bytes { LocalHeader(|name|, |extra|) + (name + extra) }

  function CentralPart(name: Bytes, extra: Bytes): Bytes { CentralHeader(|name|, |extra|) + (name + extra) }

  function ZipOf(name: Bytes, extra: Bytes): Bytes {
    var front := LocalPart(name, extra) + DESCRIPTOR;
    var central := CentralPart(name, extra);
    front + (central + EndRecord(|central|, |front|))
  }

  /** The footer for a digest in hexadecimal; Err when that is not 64 digits long. */
  function MarkerZip(hexDigest: Bytes): Result<Bytes, ()> {
    if |hexDigest| != 64 then Err(()) else Ok(ZipOf(MARKER_PREFIX + hexDigest, TIMESTAMP))
  }

  const ZIP_SIZE: nat := 290

  /** The local header says what `FrontRead` says of the central one: version 20, a descriptor to
      come, stored, 1 January 1980, and no checksum or sizes. */
  lemma LocalFields(l: Bytes, name: nat, extra: nat)
    requires l == LocalHeader(name, extra)
    ensures U2(l, 4) == 20 && U2(l, 6) == 8 && U2(l, 8) == 0 && U2(l, 10) == 0 && U2(l, 12) == 0x21
    ensures forall i | 14 <= i < 26 :: l[i] == 0
  {
    assert l[4] == 20 && l[5] == 0 && l[6] == 8 && l[7] == 0 && l[8] == 0 && l[9] == 0 && l[10] == 0 && l[11] == 0;
    assert l[12] == 0x21 && l[13] == 0;
  }

  /** The extra field is the extended timestamp of 3652 days after 1970 began. */
  lemma TimestampIs()
    ensures U2(TIMESTAMP, 0) == 0x5455 && U2(TIMESTAMP, 2) == |TIMESTAMP| - 4 && TIMESTAMP[4] == 1
            && U4(TIMESTAMP, 5) == 3652 * 24 * 60 * 60
  {
    var t := TIMESTAMP;
    assert t[0] == 0x55 && t[1] == 0x54 && t[2] == 5 && t[3] == 0 && t[5] == 0 && t[6] == 0xa6 && t[7] == 0xce
           && t[8] == 0x12;
  }

  /** The descriptor behind the file speaks of nothing. */
  lemma DescriptorIs()
    ensures U4(DESCRIPTOR, 0) == 0x08074b50 && |DESCRIPTOR| == 16 && forall i | 4 <= i < 16 :: DESCRIPTOR[i] == 0
  {
    assert DESCRIPTOR[0] == 0x50 && DESCRIPTOR[1] == 0x4b && DESCRIPTOR[2] == 7 && DESCRIPTOR[3] == 8;
  }

  /** The size of the footer does not depend on the digest. */
  lemma ZipSize(hexDigest: Bytes)
    requires |hexDigest| == 64
    ensures MarkerZip(hexDigest).Ok? && |MarkerZip(hexDigest).value| == ZIP_SIZE
  {
  }

  type Hash = sha: Bytes -> Bytes | forall x :: |sha(x)| == 32 witness x => Zeros(32)

  function Padding(size: nat): (n: nat)
    ensures n < ALIGNMENT
  {
    AlignUp(size + ZIP_SIZE) - ZIP_SIZE - size
  }

  /** The padding is the least that aligns the file. */
  lemma LeastPadding(size: nat, n: nat)
    ensures (size + Padding(size) + ZIP_SIZE) % ALIGNMENT == 0
    ensures (size + n + ZIP_SIZE) % ALIGNMENT == 0 ==> Padding(size) <= n
  {
  }

  ghost function Prefix(input: Bytes): Bytes { input + Zeros(Padding(|input|)) }

  ghost function BundleOf(input: Bytes, sha: Hash): Bytes {
    Prefix(input) + MarkerZip(HexLower(sha(Prefix(input)))).value
  }

  // Reading the trailer back, as `verify_bundle` and Python's zipfile do.

  datatype Info = Info(flags: nat, version: nat, compression: nat, time: nat, date: nat, crc: nat, compressed: nat,
                       size: nat, attributes: nat, offset: nat, rawName: Bytes, extra: Bytes)

  /** A name ends at its first NUL. */
  function CutNul(s: Bytes): Bytes { if s == [] || s[0] == 0 then [] else [s[0]] + CutNul(s[1..]) }

  /** One entry of the central directory, and where the next one starts. */
  function EntryAt(cd: Bytes, pos: nat): (r: (Info, nat))
    requires pos + 46 <= |cd|
    ensures r.1 >= pos + 46
  {
    var h := cd[pos..pos + 46];
    var start, next := pos + 46 + U2(h, 28), pos + 46 + U2(h, 28) + U2(h, 30) + U2(h, 32);
    (InfoOf(h, Slice(cd, pos + 46, start), Slice(cd, start, start + U2(h, 30))), next)
  }

  /** The central directory, entry by entry. */
  function ReadCentral(cd: Bytes, pos: nat): Option<seq<Info>>
    decreases |cd| - pos
  {
    if pos >= |cd| then Some([])
    else if pos + 46 > |cd| || U4(cd[pos..pos + 46], 0) != CENTRAL_SIGNATURE then None
    else
      var (info, next) := EntryAt(cd, pos);
      var rest := ReadCentral(cd, next);
      if rest.None? then None else Some([info] + rest.value)
  }

  function InfoOf(h: Bytes, name: Bytes, extra: Bytes): Info
    requires |h| == 46
  {
    Info(U2(h, 8), U2(h, 6), U2(h, 10), U2(h, 12), U2(h, 14), U4(h, 16), U4(h, 20), U4(h, 24), U4(h, 38), U4(h, 42),
        name, extra)
  }

  /** Extra fields fit one after the other; none of them changes sizes or the name. */
  predicate ExtraOk(extra: Bytes)
    decreases |extra|
  {
    |extra| < 4
    || (var id, length := U2(extra, 0), U2(extra, 2);
        id != 1 && id != 0x7075 && 4 + length <= |extra| && ExtraOk(extra[4 + length..]))
  }

  /** The local header belongs to the entry. */
  predicate LocalAt(image: Bytes, start: nat, info: Info) {
    && start + 30 <= |image|
    && var h := image[start..start + 30];
       U4(h, 0) == LOCAL_SIGNATURE && Slice(image, start + 30, start + 30 + U2(h, 26)) == info.rawName
  }

  /** An empty, stored, unencrypted, read-only regular file of 1 January 1980. */
  predicate EmptyMarker(info: Info) {
    && info.flags % 2 == 0 && info.flags / 32 % 4 == 0 && info.version <= 63 && info.compression == 0
    && info.size == 0 && info.compressed == 0 && info.crc == 0 && info.date == EPOCH_DATE && info.time == 0
    && info.attributes / 65536 % 4096 == 292
  }

  const EROFS_MAGIC: Bytes := [0xe2, 0xe1, 0xf5, 0xe0]

  /** Lines 33-38. */
  predicate EndOk(h: Bytes)
    requires |h| == 22
  {
    && U4(h, 0) == END_SIGNATURE && U2(h, 4) == 0 && U2(h, 6) == 0 && U2(h, 8) == 1 && U2(h, 10) == 1 && U2(h, 20) == 0
    && 46 <= U4(h, 12) <= 512 && 30 <= U4(h, 16) <= 512
  }

  /** Lines 41-51: the one marker, if the archive is what it must be; `size` and `offset` are
      those of the central directory. */
  function Marker(image: Bytes, size: nat, offset: nat): Option<Info>
    requires size <= 512 && offset <= 512 && |image| >= 2000
  {
    var end := |image| - 22;
    if U4(image[end - 20..end - 16], 0) == LOCATOR_SIGNATURE then None
    else
      var entries := ReadCentral(image[end - size..end], 0);
      if entries.None? || |entries.value| != 1 then None
      else
        var info := entries.value[0];
        if info.offset == 0 && ExtraOk(info.extra) && EmptyMarker(info)
            && LocalAt(image, end - size - offset, info) then Some(info) else None
  }

  /** Lines 33-51: where the prefix ends, and the marker behind it. */
  function Located(image: Bytes): Option<(nat, Info)>
    requires |image| >= 2000
    ensures Located(image).Some? ==> Located(image).value.0 + 98 <= |image| <= Located(image).value.0 + 1046
  {
    var h := image[|image| - 22..];
    if !EndOk(h) || |image| - 22 - U4(h, 12) - U4(h, 16) <= 1028 then None
    else
      var marker := Marker(image, U4(h, 12), U4(h, 16));
      if marker.None? then None else Some((|image| - 22 - U4(h, 12) - U4(h, 16), marker.value))
  }

  /** Everything `verify_bundle` demands. */
  predicate Acceptable(image: Bytes, sha: Hash) {
    && |image| > 0 && |image| % ALIGNMENT == 0 && image[1024..1028] == EROFS_MAGIC
    && Located(image).Some? && Names(image, sha, Located(image).value.0, Located(image).value.1)
  }

  /** The marker names the digest of what stands before it. */
  predicate Names(image: Bytes, sha: Hash, prefix: nat, marker: Info)
    requires prefix <= |image|
  {
    CutNul(marker.rawName) == MARKER_PREFIX + HexLower(sha(image[..prefix]))
  }

  /** The bound on the prefix, line 40, follows from the checks before it. */
  lemma PrefixCheckImplied(image: Bytes)
    requires 0 < |image| && |image| % ALIGNMENT == 0
    ensures var h := image[|image| - 22..]; EndOk(h) ==> |image| - 22 - U4(h, 12) - U4(h, 16) > 1028
  {
    assert |image| >= ALIGNMENT;
  }

  // What is accepted, byte by byte.

  /** The value of little-endian bytes. */
  ghost function Number(s: Bytes): nat {
    if s == [] then 0 else s[0] as int + 256 * Number(s[1..])
  }

  lemma NumberOf2(s: Bytes, i: nat)
    requires i + 2 <= |s|
    ensures U2(s, i) == Number(s[i..i + 2])
  {
    var t := s[i..i + 2];
    assert t[1..][1..] == [] && t[1..][0] == s[i + 1];
    assert Number(t) == t[0] as int + 256 * Number(t[1..]);
    assert Number(t[1..]) == s[i + 1] as int + 256 * Number([]);
  }

  lemma {:induction false} NumberJoined(a: Bytes, b: Bytes)
    requires |a| == 2
    ensures Number(a + b) == Number(a) + 65536 * Number(b)
  {
    var s := a + b;
    assert s[1..][1..] == b && s[1..][0] == a[1] && a[1..][1..] == [] && a[1..][0] == a[1];
    assert Number(s) == s[0] as int + 256 * Number(s[1..]);
    assert Number(s[1..]) == a[1] as int + 256 * Number(b);
    assert Number(a[1..]) == a[1] as int + 256 * Number([]);
  }

  lemma NumberOf4(s: Bytes, i: nat)
    requires i + 4 <= |s|
    ensures U4(s, i) == Number(s[i..i + 4])
  {
    NumberOf2(s, i);
    NumberOf2(s, i + 2);
    NumberJoined(s[i..i + 2], s[i + 2..i + 4]);
    assert s[i..i + 2] + s[i + 2..i + 4] == s[i..i + 4];
  }

  lemma Two(s: Bytes, i: nat, a: byte, b: byte)
    requires i + 2 <= |s|
    ensures U2(s, i) == a as int + 256 * b as int <==> s[i] == a && s[i + 1] == b
  {
  }

  lemma Four(s: Bytes, i: nat, a: byte, b: byte, c: byte, d: byte)
    requires i + 4 <= |s|
    ensures U4(s, i) == a as int + 256 * b as int + 65536 * (c as int + 256 * d as int)
            <==> s[i] == a && s[i + 1] == b && s[i + 2] == c && s[i + 3] == d
  {
    Two(s, i, a, b);
    Two(s, i + 2, c, d);
  }

  lemma FlagBits(s: Bytes, i: nat)
    requires i + 2 <= |s|
    ensures U2(s, i) % 2 == s[i] % 2 && U2(s, i) / 32 % 4 == s[i] / 32 % 4
  {
    var lo, hi := s[i] as int, s[i + 1] as int;
    assert (lo + 256 * hi) / 32 == lo / 32 + 8 * hi;
  }

  lemma Attributes(s: Bytes, i: nat)
    requires i + 4 <= |s|
    ensures U4(s, i) / 65536 == U2(s, i + 2)
  {
  }

  /** The end record, for one entry, with the size of the directory and where it starts. */
  ghost predicate EndsWith(h: Bytes, size: nat, offset: nat) {
    && |h| == 22 && h[0] == 0x50 && h[1] == 0x4b && h[2] == 5 && h[3] == 6 && h[8] == h[10] == 1
    && (forall i | 4 <= i < 12 && i != 8 && i != 10 :: h[i] == 0) && h[20] == h[21] == 0
    && Number(h[12..16]) == size && Number(h[16..20]) == offset && 46 <= size <= 512 && 30 <= offset <= 512
  }

  lemma EndIff(h: Bytes)
    requires |h| == 22
    ensures EndOk(h) <==> exists size, offset :: EndsWith(h, size, offset)
    ensures forall size, offset | EndsWith(h, size, offset) :: size == U4(h, 12) && offset == U4(h, 16)
  {
    NumberOf4(h, 12);
    NumberOf4(h, 16);
    Four(h, 0, 0x50, 0x4b, 5, 6);
    Two(h, 4, 0, 0);
    Two(h, 6, 0, 0);
    Two(h, 8, 1, 0);
    Two(h, 10, 1, 0);
    Two(h, 20, 0, 0);
    if EndOk(h) { assert EndsWith(h, U4(h, 12), U4(h, 16)); }
  }

  /** The header of the entry: stored and empty, not encrypted, of 1 January 1980, mode 0444, and
      at the start of the archive. */
  ghost predicate EntryHeader(h: Bytes, name: nat, extra: nat, comment: nat) {
    && |h| == 46 && h[0] == 0x50 && h[1] == 0x4b && h[2] == 1 && h[3] == 2 && Number(h[6..8]) <= 63
    && h[8] % 2 == 0 && h[8] / 32 % 4 == 0
    && h[14] == 0x21 && (forall i | 10 <= i < 28 && i != 14 :: h[i] == 0) && (forall i | 42 <= i < 46 :: h[i] == 0)
    && (h[40] as int + 256 * h[41] as int) % 4096 == 4 * 64 + 4 * 8 + 4
    && Number(h[28..30]) == name && Number(h[30..32]) == extra && Number(h[32..34]) == comment
  }

  lemma EntryIff(h: Bytes, name: Bytes, extra: Bytes)
    requires |h| == 46
    ensures EntryHeader(h, U2(h, 28), U2(h, 30), U2(h, 32)) <==>
              U4(h, 0) == CENTRAL_SIGNATURE && EmptyMarker(InfoOf(h, name, extra)) && InfoOf(h, name, extra).offset == 0
    ensures forall n, e, c | EntryHeader(h, n, e, c) :: n == U2(h, 28) && e == U2(h, 30) && c == U2(h, 32)
  {
    hide Number;
    NumberOf2(h, 6);
    NumberOf2(h, 28);
    NumberOf2(h, 30);
    NumberOf2(h, 32);
    Four(h, 0, 0x50, 0x4b, 1, 2);
    FlagBits(h, 8);
    Two(h, 10, 0, 0);
    Two(h, 12, 0, 0);
    Two(h, 14, 0x21, 0);
    Four(h, 16, 0, 0, 0, 0);
    Four(h, 20, 0, 0, 0, 0);
    Four(h, 24, 0, 0, 0, 0);
    Four(h, 42, 0, 0, 0, 0);
    Attributes(h, 38);
  }

  /** Extra fields one after the other, none of them a ZIP64 or a Unicode path field, and less than
      a field's head behind them. */
  ghost predicate Fields(extra: Bytes, fields: seq<Bytes>)
    decreases |fields|
  {
    if fields == [] then |extra| < 4
    else
      && 4 <= |fields[0]| <= |extra| && extra[..|fields[0]|] == fields[0] && Number(fields[0][2..4]) == |fields[0]| - 4
      && Number(fields[0][..2]) !in {1, 0x7075} && Fields(extra[|fields[0]|..], fields[1..])
  }

  lemma {:induction false} FieldsAreOk(extra: Bytes, fields: seq<Bytes>)
    requires Fields(extra, fields)
    ensures ExtraOk(extra)
    decreases |fields|
  {
    if fields != [] {
      var field := fields[0];
      NumberOf2(extra, 0);
      NumberOf2(extra, 2);
      assert field[2..4] == extra[2..4] && field[..2] == extra[0..2];
      FieldsAreOk(extra[|field|..], fields[1..]);
    }
  }

  lemma {:induction false} OkHasFields(extra: Bytes) returns (fields: seq<Bytes>)
    requires ExtraOk(extra)
    ensures Fields(extra, fields)
    decreases |extra|
  {
    fields := [];
    if |extra| >= 4 {
      var length := 4 + U2(extra, 2);
      var field := extra[..length];
      NumberOf2(extra, 0);
      NumberOf2(extra, 2);
      assert field[..2] == extra[0..2] && field[2..4] == extra[2..4];
      var more := OkHasFields(extra[length..]);
      fields := [field] + more;
      assert fields[1..] == more;
    }
  }

  ghost predicate Splits(extra: Bytes) {
    exists fields :: Fields(extra, fields)
  }

  lemma ExtraIff(extra: Bytes)
    ensures ExtraOk(extra) <==> Splits(extra)
  {
    if ExtraOk(extra) {
      var fields := OkHasFields(extra);
      assert Splits(extra);
    }
    if Splits(extra) {
      var fields :| Fields(extra, fields);
      FieldsAreOk(extra, fields);
    }
  }

  /** The directory is one entry: its header, its name and its extra fields. */
  ghost predicate Directory(cd: Bytes, name: Bytes, extra: Bytes) {
    && |cd| >= 46
    && exists n: nat, e: nat, c: nat ::
         EntryHeader(cd[..46], n, e, c) && 46 + n + e + c >= |cd|
         && name == Slice(cd, 46, 46 + n) && extra == Slice(cd, 46 + n, 46 + n + e)
  }

  lemma FirstRead(cd: Bytes)
    requires |cd| >= 46
    ensures U4(cd[0..46], 0) != CENTRAL_SIGNATURE ==> ReadCentral(cd, 0).None?
    ensures U4(cd[0..46], 0) == CENTRAL_SIGNATURE ==>
              var (info, next) := EntryAt(cd, 0);
              var rest := ReadCentral(cd, next);
              ReadCentral(cd, 0) == if rest.None? then None else Some([info] + rest.value)
  {
    hide EntryAt, U4;
  }

  lemma ReadEnd(cd: Bytes, pos: nat)
    ensures ReadCentral(cd, pos) == Some([]) <==> pos >= |cd|
  {
    hide EntryAt, U4;
  }

  lemma OneEntry(cd: Bytes, info: Info)
    ensures ReadCentral(cd, 0) == Some([info]) <==>
              |cd| >= 46 && U4(cd[0..46], 0) == CENTRAL_SIGNATURE && EntryAt(cd, 0).1 >= |cd|
              && EntryAt(cd, 0).0 == info
  {
    hide ReadCentral, EntryAt, U4;
    if |cd| >= 46 {
      FirstRead(cd);
      ReadEnd(cd, EntryAt(cd, 0).1);
      var one, rest := EntryAt(cd, 0).0, ReadCentral(cd, EntryAt(cd, 0).1);
      if rest.Some? { assert ([one] + rest.value)[0] == one && (rest.value == [] ==> [one] + rest.value == [one]); }
    } else {
      ShortDirectory(cd);
    }
  }

  lemma ShortDirectory(cd: Bytes)
    requires |cd| < 46
    ensures ReadCentral(cd, 0).None? || ReadCentral(cd, 0) == Some([])
  {
  }

  ghost predicate FirstIs(cd: Bytes, h: Bytes, n: nat, e: nat, c: nat, info: Info)
    requires |h| == 46
  {
    n == U2(h, 28) && e == U2(h, 30) && c == U2(h, 32)
    && info == InfoOf(h, Slice(cd, 46, 46 + n), Slice(cd, 46 + n, 46 + n + e))
  }

  lemma FirstEntry(cd: Bytes) returns (h: Bytes, n: nat, e: nat, c: nat)
    requires |cd| >= 46
    ensures h == cd[0..46] == cd[..46] && FirstIs(cd, h, n, e, c, EntryAt(cd, 0).0)
    ensures EntryAt(cd, 0).1 == 46 + n + e + c
    ensures EntryAt(cd, 0).0.rawName == Slice(cd, 46, 46 + n) && EntryAt(cd, 0).0.extra == Slice(cd, 46 + n, 46 + n + e)
  {
    hide Slice;
    h := cd[0..46];
    n, e, c := U2(h, 28), U2(h, 30), U2(h, 32);
  }

  lemma HeaderIff(cd: Bytes, h: Bytes, n: nat, e: nat, c: nat, info: Info)
    requires |h| == 46 && FirstIs(cd, h, n, e, c, info)
    ensures EntryHeader(h, n, e, c) <==> U4(h, 0) == CENTRAL_SIGNATURE && EmptyMarker(info) && info.offset == 0
    ensures forall i, j, k | EntryHeader(h, i, j, k) :: i == n && j == e && k == c
  {
    hide U2, U4, Slice, EmptyMarker, EntryHeader, InfoOf;
    EntryIff(h, Slice(cd, 46, 46 + n), Slice(cd, 46 + n, 46 + n + e));
  }

  /** The reader takes the directory exactly for what these bytes are. */
  lemma DirectoryIff(cd: Bytes, info: Info)
    ensures ReadCentral(cd, 0) == Some([info]) && info.offset == 0 && EmptyMarker(info)
            ==> Directory(cd, info.rawName, info.extra)
    ensures |cd| >= 46 && info == EntryAt(cd, 0).0 && Directory(cd, info.rawName, info.extra)
            ==> ReadCentral(cd, 0) == Some([info]) && info.offset == 0 && EmptyMarker(info)
  {
    hide U2, U4, Slice, EmptyMarker, EntryHeader, InfoOf, EntryAt, FirstIs, ReadCentral;
    OneEntry(cd, info);
    if |cd| >= 46 {
      var h, n, e, c := FirstEntry(cd);
      HeaderIff(cd, h, n, e, c, EntryAt(cd, 0).0);
    }
  }

  lemma DirectoryIsFirst(cd: Bytes, name: Bytes, extra: Bytes)
    requires Directory(cd, name, extra)
    ensures EntryAt(cd, 0).0.rawName == name && EntryAt(cd, 0).0.extra == extra
  {
    hide U2, U4, Slice, EmptyMarker, EntryHeader, InfoOf, EntryAt, FirstIs;
    var h, n, e, c := FirstEntry(cd);
    HeaderIff(cd, h, n, e, c, EntryAt(cd, 0).0);
  }

  /** A local header, and the name behind it. */
  ghost predicate LocalName(image: Bytes, at: nat, name: Bytes) {
    && at + 30 <= |image| && image[at] == 0x50 && image[at + 1] == 0x4b && image[at + 2] == 3 && image[at + 3] == 4
    && name == Slice(image, at + 30, at + 30 + (image[at + 26] as int + 256 * image[at + 27] as int))
  }

  lemma LocalIff(image: Bytes, at: nat, info: Info)
    ensures LocalAt(image, at, info) <==> LocalName(image, at, info.rawName)
  {
    if at + 30 <= |image| {
      var h := image[at..at + 30];
      Four(h, 0, 0x50, 0x4b, 3, 4);
      assert h[0] == image[at] && h[1] == image[at + 1] && h[2] == image[at + 2] && h[3] == image[at + 3];
      assert h[26] == image[at + 26] && h[27] == image[at + 27];
    }
  }

  /** The hexadecimal digits of bytes, written out. */
  ghost predicate Digits(text: Bytes, s: Bytes) {
    |text| == 2 * |s| && forall i | 0 <= i < |s| ::
      text[2 * i] as char == "0123456789abcdef"[s[i] / 16] && text[2 * i + 1] as char == "0123456789abcdef"[s[i] % 16]
  }

  lemma HexDigitIs(n: nat)
    requires n < 16
    ensures HexDigit(n) as char == "0123456789abcdef"[n]
  {
  }

  lemma DigitsHead(text: Bytes, s: Bytes)
    requires s != [] && |text| == 2 * |s| && Digits(text, s)
    ensures text[0] as char == "0123456789abcdef"[s[0] / 16] && text[1] as char == "0123456789abcdef"[s[0] % 16]
    ensures Digits(text[2..], s[1..])
  {
    assert text[2 * 0] == text[0] && text[2 * 0 + 1] == text[1];
    var more, rest := text[2..], s[1..];
    forall i | 0 <= i < |rest|
      ensures more[2 * i] as char == "0123456789abcdef"[rest[i] / 16]
      ensures more[2 * i + 1] as char == "0123456789abcdef"[rest[i] % 16]
    {
      assert more[2 * i] == text[2 * (i + 1)] && more[2 * i + 1] == text[2 * (i + 1) + 1] && rest[i] == s[i + 1];
      assert text[2 * (i + 1)] as char == "0123456789abcdef"[s[i + 1] / 16];
    }
  }

  lemma DigitsFirst(text: Bytes, s: Bytes)
    requires s != [] && |text| == 2 * |s|
    ensures Digits(text, s) <==>
              && text[0] as char == "0123456789abcdef"[s[0] / 16] && text[1] as char == "0123456789abcdef"[s[0] % 16]
              && Digits(text[2..], s[1..])
  {
    var more, rest := text[2..], s[1..];
    if Digits(text, s) { DigitsHead(text, s); }
    if text[0] as char == "0123456789abcdef"[s[0] / 16] && text[1] as char == "0123456789abcdef"[s[0] % 16]
       && Digits(more, rest) {
      forall i | 0 <= i < |s|
        ensures text[2 * i] as char == "0123456789abcdef"[s[i] / 16]
        ensures text[2 * i + 1] as char == "0123456789abcdef"[s[i] % 16]
      {
        if i > 0 {
          assert text[2 * i] == more[2 * (i - 1)] && text[2 * i + 1] == more[2 * (i - 1) + 1] && s[i] == rest[i - 1];
          assert more[2 * (i - 1)] as char == "0123456789abcdef"[rest[i - 1] / 16];
        }
      }
    }
  }

  lemma {:induction false} HexLowerIff(text: Bytes, s: Bytes)
    ensures Digits(text, s) <==> text == HexLower(s)
  {
    hide HexDigit, Digits;
    if s != [] && |text| == 2 * |s| {
      HexLowerIff(text[2..], s[1..]);
      DigitsFirst(text, s);
      HexDigitIs(s[0] / 16);
      HexDigitIs(s[0] % 16);
      assert text == [text[0], text[1]] + text[2..];
    } else {
      DigitsLength(text, s);
    }
  }

  lemma DigitsLength(text: Bytes, s: Bytes)
    ensures Digits(text, s) ==> |text| == 2 * |s|
    ensures s == [] && text == [] ==> Digits(text, s)
  {
  }

  /** The name says ".kuasar.digest." and the digest, and ends there or at a NUL. */
  ghost predicate Announces(name: Bytes, digest: Bytes) {
    && |name| >= 15 + 2 * |digest| && (forall i | 0 <= i < 15 :: name[i] as char == ".kuasar.digest."[i])
    && Digits(name[15..15 + 2 * |digest|], digest)
    && (|name| > 15 + 2 * |digest| ==> name[15 + 2 * |digest|] == 0)
  }

  lemma {:induction false} CutNulIff(s: Bytes, t: Bytes)
    requires forall i | 0 <= i < |t| :: t[i] != 0
    ensures CutNul(s) == t <==> t <= s && (|s| > |t| ==> s[|t|] == 0)
  {
    if s != [] && s[0] != 0 && t != [] {
      CutNulIff(s[1..], t[1..]);
      assert s == [s[0]] + s[1..] && t == [t[0]] + t[1..];
    }
  }

  lemma PrefixText()
    ensures |MARKER_PREFIX| == 15 && forall i | 0 <= i < 15 :: MARKER_PREFIX[i] as char == ".kuasar.digest."[i]
  {
  }

  lemma AnnouncesIff(name: Bytes, digest: Bytes)
    ensures Announces(name, digest) <==> CutNul(name) == MARKER_PREFIX + HexLower(digest)
  {
    var text := MARKER_PREFIX + HexLower(digest);
    HexLowerBytes(digest);
    PrefixText();
    assert forall i | 0 <= i < 15 :: MARKER_PREFIX[i] != 0;
    CutNulIff(name, text);
    if |name| >= |text| {
      var part := name[15..15 + 2 * |digest|];
      HexLowerIff(part, digest);
      assert name[..|text|] == name[..15] + part;
      assert text <= name <==> name[..|text|] == text;
      assert name[..15] == MARKER_PREFIX <==> forall i | 0 <= i < 15 :: name[i] == MARKER_PREFIX[i];
      assert text[..15] == MARKER_PREFIX && text[15..] == HexLower(digest);
    }
  }

  /** The one entry of the directory, behind the prefix, announces the digest of the prefix. */
  ghost predicate Marked(image: Bytes, sha: Hash, size: nat, offset: nat)
    requires |image| >= 2000 && size <= 512 && offset <= 512
  {
    var end := |image| - 22;
    && !(image[end - 20] == 0x50 && image[end - 19] == 0x4b && image[end - 18] == 6 && image[end - 17] == 7)
    && Entered(image, sha, image[end - size..end], end - size - offset)
  }

  ghost predicate Entered(image: Bytes, sha: Hash, cd: Bytes, prefix: nat)
    requires prefix <= |image|
  {
    exists name, extra :: Directory(cd, name, extra) && Splits(extra) && LocalName(image, prefix, name)
                          && Announces(name, sha(image[..prefix]))
  }

  ghost predicate EntryOk(image: Bytes, cd: Bytes, prefix: nat, info: Info) {
    && ReadCentral(cd, 0) == Some([info]) && info.offset == 0 && ExtraOk(info.extra) && EmptyMarker(info)
    && LocalAt(image, prefix, info)
  }

  lemma EnteredIff(image: Bytes, sha: Hash, cd: Bytes, prefix: nat)
    requires prefix <= |image|
    ensures Entered(image, sha, cd, prefix) <==>
              exists info :: EntryOk(image, cd, prefix, info) && Names(image, sha, prefix, info)
  {
    hide Directory, Splits, LocalName, Announces, ReadCentral, ExtraOk, EmptyMarker, LocalAt, CutNul, EntryAt;
    if Entered(image, sha, cd, prefix) {
      var name, extra :| Directory(cd, name, extra) && Splits(extra) && LocalName(image, prefix, name)
        && Announces(name, sha(image[..prefix]));
      DirectoryHasHeader(cd, name, extra);
      DirectoryIsFirst(cd, name, extra);
      var info := EntryAt(cd, 0).0;
      DirectoryIff(cd, info);
      ExtraIff(extra);
      LocalIff(image, prefix, info);
      AnnouncesIff(name, sha(image[..prefix]));
      assert EntryOk(image, cd, prefix, info) && Names(image, sha, prefix, info);
    }
    if info :| EntryOk(image, cd, prefix, info) && Names(image, sha, prefix, info) {
      DirectoryIff(cd, info);
      ExtraIff(info.extra);
      LocalIff(image, prefix, info);
      AnnouncesIff(info.rawName, sha(image[..prefix]));
    }
  }

  lemma DirectoryHasHeader(cd: Bytes, name: Bytes, extra: Bytes)
    requires Directory(cd, name, extra)
    ensures |cd| >= 46
  {
  }

  ghost predicate HasLocator(image: Bytes)
    requires |image| >= 42
  {
    U4(image[|image| - 42..|image| - 38], 0) == LOCATOR_SIGNATURE
  }

  lemma LocatorBytes(image: Bytes)
    requires |image| >= 42
    ensures HasLocator(image) <==>
              var at := |image| - 42;
                  image[at] == 0x50 && image[at + 1] == 0x4b && image[at + 2] == 6 && image[at + 3] == 7
  {
    var s := image[|image| - 42..|image| - 38];
    Four(s, 0, 0x50, 0x4b, 6, 7);
  }

  lemma MarkerIsEntry(image: Bytes, size: nat, offset: nat, info: Info)
    requires |image| >= 2000 && size <= 512 && offset <= 512
    ensures var end := |image| - 22;
      Marker(image, size, offset) == Some(info) <==>
        !HasLocator(image) && EntryOk(image, image[end - size..end], end - size - offset, info)
  {
    hide ReadCentral, ExtraOk, EmptyMarker, LocalAt, U4;
    var end := |image| - 22;
    var entries := ReadCentral(image[end - size..end], 0);
    if entries.Some? && |entries.value| == 1 { assert entries.value == [entries.value[0]]; }
  }

  lemma MarkerIff(image: Bytes, sha: Hash, size: nat, offset: nat)
    requires |image| >= 2000 && size <= 512 && offset <= 512
    ensures Marked(image, sha, size, offset) <==>
              Marker(image, size, offset).Some?
              && Names(image, sha, |image| - 22 - size - offset, Marker(image, size, offset).value)
  {
    hide Names, Marker, EntryOk, Entered, HasLocator;
    var end := |image| - 22;
    var cd, prefix := image[end - size..end], end - size - offset;
    LocatorBytes(image);
    EnteredIff(image, sha, cd, prefix);
    if Marker(image, size, offset).Some? { MarkerIsEntry(image, size, offset, Marker(image, size, offset).value); }
    if info :| EntryOk(image, cd, prefix, info) && Names(image, sha, prefix, info) {
      MarkerIsEntry(image, size, offset, info);
    }
  }

  ghost predicate Ended(image: Bytes, sha: Hash)
    requires |image| >= 2000
  {
    exists size, offset :: EndsWith(image[|image| - 22..], size, offset) && Marked(image, sha, size, offset)
  }

  lemma EndedIff(image: Bytes, sha: Hash)
    requires |image| > 0 && |image| % ALIGNMENT == 0
    ensures Ended(image, sha) <==>
              Located(image).Some? && Names(image, sha, Located(image).value.0, Located(image).value.1)
  {
    hide Names, Marker, Marked, EndOk, EndsWith, U4;
    var h := image[|image| - 22..];
    EndIff(h);
    EndBounds(h);
    PrefixCheckImplied(image);
    if EndOk(h) { MarkerIff(image, sha, U4(h, 12), U4(h, 16)); }
  }

  /** On every file: accepted exactly when it is aligned, carries the EROFS magic at 1024 and ends
      with an archive whose one empty entry is named after the digest of all that comes before. */
  lemma AcceptableIff(image: Bytes, sha: Hash)
    ensures Acceptable(image, sha) <==>
              && |image| > 0 && |image| % 0x20_0000 == 0
              && image[1024] == 0xe2 && image[1025] == 0xe1 && image[1026] == 0xf5 && image[1027] == 0xe0
              && Ended(image, sha)
  {
    hide Names, Located, Ended;
    if |image| > 0 && |image| % 0x20_0000 == 0 {
      EndedIff(image, sha);
      MagicBytes(image);
    }
  }

  lemma EndBounds(h: Bytes)
    requires |h| == 22
    ensures EndOk(h) ==> U4(h, 12) <= 512 && U4(h, 16) <= 512
    ensures forall size, offset | EndsWith(h, size, offset) :: size <= 512 && offset <= 512
  {
  }

  lemma MagicBytes(image: Bytes)
    requires |image| >= 1028
    ensures image[1024..1028] == EROFS_MAGIC <==>
              image[1024] == 0xe2 && image[1025] == 0xe1 && image[1026] == 0xf5 && image[1027] == 0xe0
  {
    var s := image[1024..1028];
    assert s[0] == image[1024] && s[1] == image[1025] && s[2] == image[1026] && s[3] == image[1027];
  }

  // A built bundle, read back.

  lemma EndRead()
    ensures EndOk(EndRecord(134, 134)) && U4(EndRecord(134, 134), 12) == 134 && U4(EndRecord(134, 134), 16) == 134
  {
    var h := EndRecord(134, 134);
    assert h[0] == 0x50 && h[1] == 0x4b && h[2] == 5 && h[3] == 6 && h[12] == 134 && h[13] == 0 && h[14] == 0
        && h[15] == 0;
    assert h[16] == 134 && h[17] == 0 && h[18] == 0 && h[19] == 0;
  }

  lemma FrontRead(h: Bytes)
    requires h == CENTRAL_FRONT
    ensures U4(h, 0) == CENTRAL_SIGNATURE && U2(h, 6) == 20 && U2(h, 8) == 8 && U2(h, 10) == 0 && U2(h, 12) == 0
            && U2(h, 14) == EPOCH_DATE
    ensures h[4] == 20 && h[5] == 3 // made by Unix 2.0
    ensures U4(h, 16) == 0 && U4(h, 20) == 0 && U4(h, 24) == 0
  {
    assert h[0] == 0x50 && h[1] == 0x4b && h[2] == 1 && h[3] == 2 && h[6] == 20 && h[7] == 0 && h[8] == 8 && h[9] == 0;
    assert h[10] == 0 && h[11] == 0 && h[12] == 0 && h[13] == 0 && h[14] == 0x21 && h[15] == 0;
    assert h[16] == 0 && h[17] == 0 && h[18] == 0 && h[19] == 0 && h[20] == 0 && h[21] == 0 && h[22] == 0 && h[23] == 0;
  }

  lemma BackRead(h: Bytes)
    requires h == CentralBack(79, 9)
    ensures U2(h, 0) == 79 && U2(h, 2) == 9 && U2(h, 4) == 0 && U4(h, 10) / 65536 % 4096 == 292 && U4(h, 14) == 0
    ensures U4(h, 10) == 0x8124_0001 && U2(h, 6) == 0 && U2(h, 8) == 0 // regular, mode 0444, and the read-only bit
  {
  }

  /** Reading in one of two joined records. */
  lemma ReadJoined(a: Bytes, b: Bytes, i: nat)
    ensures i + 2 <= |a| ==> U2(a + b, i) == U2(a, i)
    ensures i + 2 <= |b| ==> U2(a + b, |a| + i) == U2(b, i)
  {
  }

  lemma ReadJoined4(a: Bytes, b: Bytes, i: nat)
    ensures i + 4 <= |a| ==> U4(a + b, i) == U4(a, i)
    ensures i + 4 <= |b| ==> U4(a + b, |a| + i) == U4(b, i)
  {
    ReadJoined(a, b, i);
    ReadJoined(a, b, i + 2);
  }

  lemma CentralHeaderRead(h: Bytes, name: Bytes, extra: Bytes)
    requires h == CentralHeader(79, 9)
    ensures U4(h, 0) == CENTRAL_SIGNATURE && U2(h, 28) == 79 && U2(h, 30) == 9 && U2(h, 32) == 0
    ensures EmptyMarker(InfoOf(h, name, extra)) && InfoOf(h, name, extra).offset == 0
  {
    hide U2;
    FrontRead(CENTRAL_FRONT);
    BackRead(CentralBack(79, 9));
    HeaderJoined(h, CENTRAL_FRONT, CentralBack(79, 9));
  }

  lemma HeaderJoined(h: Bytes, a: Bytes, b: Bytes)
    requires h == a + b && |a| == 28 && |b| == 18
    ensures U4(h, 0) == U4(a, 0) && U2(h, 6) == U2(a, 6) && U2(h, 8) == U2(a, 8) && U2(h, 10) == U2(a, 10)
            && U2(h, 12) == U2(a, 12)
    ensures U2(h, 14) == U2(a, 14) && U4(h, 16) == U4(a, 16) && U4(h, 20) == U4(a, 20) && U4(h, 24) == U4(a, 24)
    ensures U2(h, 28) == U2(b, 0) && U2(h, 30) == U2(b, 2) && U2(h, 32) == U2(b, 4) && U4(h, 38) == U4(b, 10)
            && U4(h, 42) == U4(b, 14)
  {
    ReadJoined4(a, b, 0);
    ReadJoined(a, b, 6);
    ReadJoined(a, b, 8);
    ReadJoined(a, b, 10);
    ReadJoined(a, b, 12);
    ReadJoined(a, b, 14);
    ReadJoined4(a, b, 16);
    ReadJoined4(a, b, 20);
    ReadJoined4(a, b, 24);
    ReadJoined(a, b, 0);
    ReadJoined(a, b, 2);
    ReadJoined(a, b, 4);
    ReadJoined4(a, b, 10);
    ReadJoined4(a, b, 14);
  }

  lemma ThreeParts(a: Bytes, b: Bytes, c: Bytes)
    ensures var s := a + (b + c);
      s[0..|a|] == a && Slice(s, |a|, |a| + |b|) == b && Slice(s, |a| + |b|, |a| + |b| + |c|) == c
      && |s| == |a| + |b| + |c|
  {
  }

  /** A directory of one entry without a comment. */
  lemma ReadOne(cd: Bytes, h: Bytes, name: Bytes, extra: Bytes)
    requires cd == h + (name + extra) && |h| == 46 && U4(h, 0) == CENTRAL_SIGNATURE
    requires U2(h, 28) == |name| && U2(h, 30) == |extra| && U2(h, 32) == 0
    ensures ReadCentral(cd, 0) == Some([InfoOf(h, name, extra)])
  {
    ThreeParts(h, name, extra);
    var info := InfoOf(h, name, extra);
    assert ReadCentral(cd, |cd|) == Some([]);
    assert [info] + [] == [info];
  }

  lemma CentralRead(name: Bytes, extra: Bytes)
    requires |name| == 79 && |extra| == 9
    ensures ReadCentral(CentralPart(name, extra), 0) == Some([InfoOf(CentralHeader(79, 9), name, extra)])
  {
    CentralHeaderRead(CentralHeader(79, 9), name, extra);
    ReadOne(CentralPart(name, extra), CentralHeader(79, 9), name, extra);
  }

  lemma LocalRead(front: Bytes, name: Bytes, extra: Bytes, more: Bytes, info: Info)
    requires |name| == 79 && |extra| == 9 && info.rawName == name
    ensures LocalAt(front + (LocalPart(name, extra) + more), |front|, info)
  {
    var image, h := front + (LocalPart(name, extra) + more), LocalHeader(79, 9);
    assert image[|front|..|front| + 30] == h;
    assert U4(h, 0) == LOCAL_SIGNATURE && U2(h, 26) == 79;
    assert image[|front| + 30..|front| + 30 + 79] == name;
  }

  /** Where the records of a footer lie in the file. */
  lemma FooterParts(front: Bytes, name: Bytes, extra: Bytes)
    requires |name| == 79 && |extra| == 9
    ensures var image := front + ZipOf(name, extra); var n := |image|;
      n == |front| + ZIP_SIZE && image[..|front|] == front
      && image[n - 22..] == EndRecord(134, 134) && image[n - 156..n - 22] == CentralPart(name, extra)
      && image[n - 42..n - 38] == name[68..72]
      && image == front + (LocalPart(name, extra) + (DESCRIPTOR + (CentralPart(name, extra) + EndRecord(134, 134))))
  {
    var local, c, e := LocalPart(name, extra), CentralPart(name, extra), EndRecord(134, 134);
    Regroup(local, DESCRIPTOR, c + e);
    Tail(front, local + DESCRIPTOR, c, e);
    NameInCentral(name, extra);
  }

  lemma NameInCentral(name: Bytes, extra: Bytes)
    requires |name| == 79 && |extra| == 9
    ensures CentralPart(name, extra)[114..118] == name[68..72]
  {
  }

  lemma Tail(front: Bytes, a: Bytes, c: Bytes, e: Bytes)
    requires |c| == 134 && |e| == 22
    ensures var image := front + (a + (c + e)); var n := |image|;
      image[n - 22..] == e && image[n - 156..n - 22] == c && image[n - 42..n - 38] == c[114..118]
      && image[..|front|] == front
  {
  }

  /** The bytes where a ZIP64 locator would stand are digits of the marker's name. */
  lemma NoLocator(h: Bytes)
    requires |h| == 4 && HexByte(h[0])
    ensures U4(h, 0) != LOCATOR_SIGNATURE
  {
  }

  lemma {:induction false} NoNul(s: Bytes)
    requires forall i | 0 <= i < |s| :: s[i] != 0
    ensures CutNul(s) == s
  {
    if s != [] {
      NoNul(s[1..]);
      assert s == [s[0]] + s[1..];
    }
  }

  lemma TimestampOk()
    ensures ExtraOk(TIMESTAMP)
  {
    assert U2(TIMESTAMP, 0) == 0x5455 && U2(TIMESTAMP, 2) == 5;
    assert TIMESTAMP[9..] == [];
    assert ExtraOk([]);
  }

  lemma MarkerName(hexDigest: Bytes)
    requires |hexDigest| == 64 && forall i | 0 <= i < 64 :: HexByte(hexDigest[i])
    ensures var name := MARKER_PREFIX + hexDigest; |name| == 79 && HexByte(name[68]) && CutNul(name) == name
  {
    var name := MARKER_PREFIX + hexDigest;
    assert forall i | 0 <= i < 15 :: MARKER_PREFIX[i] != 0;
    NoNul(name);
  }

  lemma MarkerIs(image: Bytes, info: Info)
    requires |image| >= 2290 && U4(image[|image| - 42..|image| - 38], 0) != LOCATOR_SIGNATURE
    requires ReadCentral(image[|image| - 156..|image| - 22], 0) == Some([info])
    requires info.offset == 0 && ExtraOk(info.extra) && EmptyMarker(info) && LocalAt(image, |image| - ZIP_SIZE, info)
    ensures Marker(image, 134, 134) == Some(info)
  {
  }

  /** The end record of a built file locates its one marker behind the prefix. */
  lemma MarkerFound(front: Bytes, name: Bytes, image: Bytes)
    requires |name| == 79 && HexByte(name[68]) && |front| >= 2000 && image == front + ZipOf(name, TIMESTAMP)
    ensures |image| == |front| + ZIP_SIZE && image[|image| - 22..] == EndRecord(134, 134) && image[..|front|] == front
    ensures Marker(image, 134, 134) == Some(InfoOf(CentralHeader(79, 9), name, TIMESTAMP))
  {
    var extra, header := TIMESTAMP, CentralHeader(79, 9);
    var info := InfoOf(header, name, extra);
    FooterParts(front, name, extra);
    NoLocator(name[68..72]);
    CentralRead(name, extra);
    CentralHeaderRead(header, name, extra);
    TimestampOk();
    LocalRead(front, name, extra, DESCRIPTOR + (CentralPart(name, extra) + EndRecord(134, 134)), info);
    MarkerIs(image, info);
  }

  /** With the end record and the marker in place, only the magic and the digest are left. */
  lemma AcceptedBy(image: Bytes, sha: Hash, info: Info)
    requires |image| >= 2290 && |image| % ALIGNMENT == 0 && image[|image| - 22..] == EndRecord(134, 134)
             && Marker(image, 134, 134) == Some(info)
    requires Names(image, sha, |image| - ZIP_SIZE, info)
    ensures Acceptable(image, sha) <==> image[1024..1028] == EROFS_MAGIC
  {
    EndRead();
  }

  /** Every bundle built from an input that carries the magic at offset 1024 is accepted, and no
      other bundle is. */
  lemma BuiltIsAccepted(input: Bytes, sha: Hash)
    ensures Acceptable(BundleOf(input, sha), sha) <==> |input| >= 1028 && input[1024..1028] == EROFS_MAGIC
  {
    var front := Prefix(input);
    var hexDigest := HexLower(sha(front));
    var name, image := MARKER_PREFIX + hexDigest, BundleOf(input, sha);
    HexLowerBytes(sha(front));
    MarkerName(hexDigest);
    PrefixSize(input);
    MarkerFound(front, name, image);
    AcceptedOf(front, image, sha, InfoOf(CentralHeader(79, 9), name, TIMESTAMP));
    MagicInInput(input, image);
  }

  /** The footer after `front` ends at a multiple of the alignment. */
  ghost predicate EndsAligned(front: Bytes) { (|front| + ZIP_SIZE) % ALIGNMENT == 0 }

  lemma AcceptedOf(front: Bytes, image: Bytes, sha: Hash, info: Info)
    requires |front| >= 2000 && EndsAligned(front) && |image| == |front| + ZIP_SIZE
    requires image[|image| - 22..] == EndRecord(134, 134) && Marker(image, 134, 134) == Some(info)
    requires Names(image, sha, |front|, info)
    ensures Acceptable(image, sha) <==> image[1024..1028] == EROFS_MAGIC
  {
    AcceptedBy(image, sha, info);
  }

  lemma PrefixSize(input: Bytes)
    ensures |Prefix(input)| >= 2000 && EndsAligned(Prefix(input)) && input <= Prefix(input)
  {
    LeastPadding(|input|, 0);
  }

  lemma MagicInInput(input: Bytes, image: Bytes)
    requires |Prefix(input)| >= 1028 && Prefix(input) <= image
    ensures image[1024..1028] == EROFS_MAGIC <==> |input| >= 1028 && input[1024..1028] == EROFS_MAGIC
  {
    var front := Prefix(input);
    assert image[1024..1028] == front[1024..1028];
    if |input| < 1028 {
      assert front[1027] == 0 && front[1024..1028][3] == 0;
      assert EROFS_MAGIC[3] == 0xe0;
    } else {
      assert front[1024..1028] == input[1024..1028];
    }
  }
}
