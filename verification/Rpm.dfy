/** scripts/static-crypto-catalog.py lines 76-80 and 120-152: the source RPM reader, and the
    writer it is paired with at scripts/test-static-crypto.py lines 55-64. */
module Rpm {
  import opened Outcomes
  import opened Bytes

  const LEAD: Bytes := [0xed, 0xab, 0xee, 0xdb]
  const HEADER: Bytes := [0x8e, 0xad, 0xe8, 0x01]
  const MAGIC: Bytes := [48, 55, 48, 55, 48, 49] // "070701"
  const TRAILER: Bytes := [84, 82, 65, 73, 76, 69, 82, 33, 33, 33] // "TRAILER!!!"
  const SLASH: byte := 47
  const DOT: byte := 46

  function Up4(n: nat): (m: nat)
    ensures n <= m < n + 4 && m % 4 == 0
  {
    if n % 4 == 0 then n else n + 4 - n % 4
  }

  function Up8(n: nat): (m: nat)
    ensures n <= m < n + 8 && m % 8 == 0
  {
    if n % 8 == 0 then n else n + 8 - n % 8
  }

  /** The roundings as the reader writes them. */
  lemma UpIsRounding(n: nat)
    ensures Up4(n) == (n + 3) / 4 * 4 && Up8(n) == (n + 7) / 8 * 8
  {
    assert (n + 3) / 4 == if n % 4 == 0 then n / 4 else n / 4 + 1;
    assert (n + 7) / 8 == if n % 8 == 0 then n / 8 else n / 8 + 1;
  }

  lemma UpTwice(n: nat)
    ensures Up4(Up4(n)) == Up4(n)
  {
  }

  // Lines 76-80.

  predicate NameByte(b: byte) {
    65 <= b <= 90 || 97 <= b <= 122 || 48 <= b <= 57
    || b == 46 || b == 95 || b == 43 || b == 126 || b == 64 || b == 47 || b == 45 // . _ + ~ @ / -
  }

  function Split(s: Bytes): (parts: seq<Bytes>)
    ensures |parts| > 0
  {
    if s == [] then [[]]
    else if s[0] == SLASH then [[]] + Split(s[1..])
    else var rest := Split(s[1..]); [[s[0]] + rest[0]] + rest[1..]
  }

  predicate SafeRelative(name: Bytes) {
    && name != [] && (forall i | 0 <= i < |name| :: NameByte(name[i]))
    && (forall i | 0 <= i < |Split(name)| :: Split(name)[i] !in [[], [DOT], [DOT, DOT]])
    && name[0] != SLASH
  }

  lemma {:induction false} OnePart(s: Bytes)
    requires SLASH !in s
    ensures Split(s) == [s]
  {
    if s != [] {
      OnePart(s[1..]);
      assert s == [s[0]] + s[1..];
    }
  }

  ghost predicate InName(c: char) {
    'A' <= c <= 'Z' || 'a' <= c <= 'z' || '0' <= c <= '9' || c in {'.', '_', '+', '~', '@', '-'}
  }

  /** A safe name without a slash, spelled out. */
  lemma SafeIff(name: Bytes)
    ensures SafeRelative(name) && SLASH !in name <==>
              && name != [] && name != ['.' as int] && name != ['.' as int, '.' as int]
              && forall i | 0 <= i < |name| :: InName(name[i] as char)
  {
    assert forall i | 0 <= i < |name| :: name[i] in name;
    if SLASH !in name {
      OnePart(name);
      assert Split(name)[0] == name;
    }
    forall i | 0 <= i < |name|
      ensures InName(name[i] as char) <==> NameByte(name[i]) && name[i] != 47
    {
    }
  }

  /** The keys a catalog may hold: one component, and never the end marker. */
  lemma SafeIsComponent(name: Bytes)
    requires SafeRelative(name) && SLASH !in name
    ensures name !in [[], [DOT], [DOT, DOT], TRAILER]
  {
    OnePart(name);
    assert Split(name)[0] == name;
    assert !NameByte(TRAILER[7]);
  }

  // The cpio stream.

  function Field(payload: Bytes, pos: nat, k: nat): Option<int> {
    HexInt(Slice(payload, pos + 6 + 8 * k, pos + 14 + 8 * k))
  }

  predicate HeaderAt(payload: Bytes, pos: nat) {
    && pos + 110 <= |payload| && payload[pos..pos + 6] == MAGIC
    && forall k | 0 <= k < 13 :: Field(payload, pos, k).Some?
  }

  /** The fields of a header that matter. */
  datatype Numbers = Numbers(mode: int, links: int, size: int, length: int)

  function NumbersAt(payload: Bytes, pos: nat): (n: Option<Numbers>)
    ensures n.Some? ==> pos + 110 <= |payload|
  {
    if !HeaderAt(payload, pos) then None
    else Some(Numbers(Field(payload, pos, 1).value, Field(payload, pos, 4).value, Field(payload, pos, 6).value,
        Field(payload, pos, 11).value))
  }

  datatype Member = Member(name: Bytes, mode: int, links: int, body: Bytes, next: nat)

  predicate Ascii(s: Bytes) { forall i | 0 <= i < |s| :: s[i] < 128 }

  /** Lines 138-144: name and body behind a header. */
  function Cut(payload: Bytes, pos: nat, n: Numbers): (m: Option<Member>)
    ensures m.Some? ==> pos + 112 <= m.value.next
  {
    if n.length <= 1 then None
    else
      var raw := Slice(payload, pos + 110, pos + 110 + n.length);
      if raw == [] || raw[|raw| - 1] != 0 || !Ascii(raw) then None
      else
        var start := Up4(pos + 110 + n.length);
        if n.size < 0 || |Slice(payload, start, start + n.size)| != n.size then None
        else Some(Member(raw[..|raw| - 1], n.mode, n.links, Slice(payload, start, start + n.size), Up4(start + n.size)))
  }

  /** Lines 134-144. */
  function ReadMember(payload: Bytes, pos: nat): (m: Option<Member>)
    ensures m.Some? ==> pos + 112 <= m.value.next && pos + 110 <= |payload|
  {
    var n := NumbersAt(payload, pos);
    if n.None? then None else Cut(payload, pos, n.value)
  }

  predicate Regular(mode: int) { mode >= 0 && mode / 4096 % 16 == 8 }

  predicate Plain(name: Bytes, mode: int, links: int) {
    SafeRelative(name) && SLASH !in name && Regular(mode) && links == 1
  }

  /** Lines 132-152 from a position on, `seen` being the members before it. */
  function Parse(payload: Bytes, pos: nat, seen: map<Bytes, Bytes>): Result<map<Bytes, Bytes>, ()>
    decreases |payload| + 112 - pos
  {
    var m := ReadMember(payload, pos);
    if m.None? then Err(())
    else if m.value.name == TRAILER then
      if m.value.body == [] && (m.value.next <= |payload| ==> AllZero(payload[m.value.next..])) then Ok(seen)
          else Err(())
    else if Plain(m.value.name, m.value.mode, m.value.links) && m.value.name !in seen then
      Parse(payload, m.value.next, seen[m.value.name := m.value.body])
    else Err(())
  }

  function Big32(s: Bytes): nat
    requires |s| == 4
  {
    var a: int, b: int, c: int := s[0], s[1], s[2];
    ((a * 256 + b) * 256 + c) * 256 + s[3]
  }

  /** Lines 125-128: where a header that starts at `pos` ends. */
  function HeaderEnd(data: Bytes, pos: nat): (end: Option<nat>)
    ensures end.Some? ==> pos + 16 <= end.value <= |data|
  {
    if Slice(data, pos, pos + 4) != HEADER || pos + 16 > |data| then None
    else
      var end := pos + 16 + Big32(data[pos + 8..pos + 12]) * 16 + Big32(data[pos + 12..pos + 16]);
      if end <= |data| then Some(end) else None
  }

  function PayloadStart(data: Bytes): (start: Option<nat>)
    ensures start.Some? ==> start.value <= |data|
  {
    if Slice(data, 0, 4) != LEAD then None
    else
      var first := HeaderEnd(data, 96);
      if first.None? then None else HeaderEnd(data, Up8(first.value))
  }

  function Sources(data: Bytes, gunzip: Bytes -> Option<Bytes>): Result<map<Bytes, Bytes>, ()> {
    var start := PayloadStart(data);
    if start.None? then Err(())
    else
      var payload := gunzip(data[start.value..]);
      if payload.None? then Err(()) else Parse(payload.value, 0, map[])
  }

  /** Lines 120-152. */
  method RpmSources(data: Bytes, gunzip: Bytes -> Option<Bytes>) returns (r: Result<map<Bytes, Bytes>, ()>)
    ensures r == Sources(data, gunzip)
  {
    if Slice(data, 0, 4) != LEAD { return Err(()); }
    var pos := 96;
    for index := 0 to 2
      invariant index == 0 ==> pos == 96
      invariant index == 1 ==> HeaderEnd(data, 96).Some? && pos == Up8(HeaderEnd(data, 96).value)
      invariant index == 2 ==> PayloadStart(data) == Some(pos)
    {
      var end := HeaderEnd(data, pos);
      if end.None? { return Err(()); }
      pos := end.value;
      if index == 0 { pos := Up8(pos); }
    }
    var payload := gunzip(data[pos..]);
    if payload.None? { return Err(()); }
    r := ReadAll(payload.value);
  }

  method ReadAll(payload: Bytes) returns (r: Result<map<Bytes, Bytes>, ()>)
    ensures r == Parse(payload, 0, map[])
  {
    var pos: nat, result: map<Bytes, Bytes> := 0, map[];
    while true
      invariant Parse(payload, 0, map[]) == Parse(payload, pos, result)
      decreases |payload| + 112 - pos
    {
      var m := ReadMember(payload, pos);
      if m.None? { return Err(()); }
      var Member(name, mode, links, body, next) := m.value;
      if name == TRAILER {
        if body != [] || !(next <= |payload| ==> AllZero(payload[next..])) { return Err(()); }
        return Ok(result);
      }
      if !Plain(name, mode, links) || name in result { return Err(()); }
      pos, result := next, result[name := body];
    }
  }

  // Where the payload starts, stated without the reader.

  /** The number in four bytes, the first one worth most. */
  ghost predicate Spells(s: Bytes, n: nat) {
    |s| == 4 && n == s[0] as int * 0x100_0000 + s[1] as int * 0x1_0000 + s[2] as int * 0x100 + s[3] as int
  }

  /** A header with that many index entries of sixteen bytes, and a store of that size. */
  ghost predicate IsHeader(h: Bytes, entries: nat, size: nat) {
    && |h| == 16 + 16 * entries + size && h[..4] == [0x8e, 0xad, 0xe8, 0x01]
    && Spells(h[8..12], entries) && Spells(h[12..16], size)
  }

  lemma SpelledByOne(s: Bytes)
    requires |s| == 4
    ensures Spells(s, Big32(s)) && forall n | Spells(s, n) :: n == Big32(s)
  {
  }

  lemma HeaderEndIff(data: Bytes, pos: nat, end: nat)
    ensures HeaderEnd(data, pos) == Some(end) <==>
              pos + 16 <= end <= |data| && exists entries, size :: IsHeader(data[pos..end], entries, size)
  {
    if pos + 16 <= |data| {
      assert Slice(data, pos, pos + 4) == data[pos..pos + 4];
      SpelledByOne(data[pos + 8..pos + 12]);
      SpelledByOne(data[pos + 12..pos + 16]);
      if pos + 16 <= end <= |data| { HeaderBytes(data, pos, end); }
      if HeaderEnd(data, pos) == Some(end) {
        assert IsHeader(data[pos..end], Big32(data[pos + 8..pos + 12]), Big32(data[pos + 12..pos + 16]));
      }
    }
  }

  lemma HeaderBytes(data: Bytes, pos: nat, end: nat)
    requires pos + 16 <= end <= |data|
    ensures var h := data[pos..end];
      h[..4] == data[pos..pos + 4] && h[8..12] == data[pos + 8..pos + 12] && h[12..16] == data[pos + 12..pos + 16]
  {
    PartOfPart(data, pos, end, 0, 4);
    PartOfPart(data, pos, end, 8, 12);
    PartOfPart(data, pos, end, 12, 16);
  }

  lemma PartOfPart(s: Bytes, a: nat, b: nat, i: nat, j: nat)
    requires a <= b <= |s| && i <= j <= b - a
    ensures s[a..b][i..j] == s[a + i..a + j]
  {
    assert forall k | 0 <= k < j - i :: s[a..b][i..j][k] == s[a + i..a + j][k];
  }

  /** The lead, a header, less than eight bytes up to the next multiple of eight, and another header. */
  ghost predicate Front(data: Bytes, first: nat, second: nat, start: nat) {
    && 112 <= first <= second < first + 8 && second % 8 == 0 && second + 16 <= start <= |data|
    && data[..4] == [0xed, 0xab, 0xee, 0xdb]
    && (exists entries, size :: IsHeader(data[96..first], entries, size))
    && exists entries, size :: IsHeader(data[second..start], entries, size)
  }

  lemma NextMultiple(first: nat, second: nat)
    requires first <= second < first + 8 && second % 8 == 0
    ensures second == Up8(first)
  {
  }

  /** On every byte string: the payload starts there exactly when that lies before it. */
  lemma StartIff(data: Bytes, start: nat)
    ensures PayloadStart(data) == Some(start) <==> exists first, second :: Front(data, first, second, start)
  {
    if PayloadStart(data) == Some(start) {
      var first := HeaderEnd(data, 96).value;
      HeaderEndIff(data, 96, first);
      HeaderEndIff(data, Up8(first), start);
      assert Slice(data, 0, 4) == data[..4];
      assert Front(data, first, Up8(first), start);
    }
    if first, second :| Front(data, first, second, start) {
      HeaderEndIff(data, 96, first);
      NextMultiple(first, second);
      HeaderEndIff(data, second, start);
      assert Slice(data, 0, 4) == data[..4];
    }
  }

  /** Whatever the lead says, whatever the headers hold and however long they are. */
  lemma PackageIsRead(lead: Bytes, a: Bytes, pad: Bytes, b: Bytes, z: Bytes, entries: nat, size: nat, entries2: nat,
      size2: nat, gunzip: Bytes -> Option<Bytes>)
    requires |lead| == 96 && lead[..4] == [0xed, 0xab, 0xee, 0xdb]
    requires IsHeader(a, entries, size) && IsHeader(b, entries2, size2)
    requires |pad| < 8 && (|lead| + |a| + |pad|) % 8 == 0
    ensures PayloadStart(lead + a + pad + b + z) == Some(|lead + a + pad + b|)
    ensures Sources(lead + a + pad + b + z, gunzip) == match gunzip(z)
              case None => Err(())
              case Some(payload) => Parse(payload, 0, map[])
  {
    var front := lead + a + pad + b;
    var data, first, second, start := front + z, 96 + |a|, 96 + |a| + |pad|, |front|;
    assert data[..4] == lead[..4] && data[96..first] == a && data[second..start] == b && data[start..] == z;
    assert Front(data, first, second, start);
    StartIff(data, start);
  }

  // What is accepted, stated without the reader.

  datatype Span = Span(start: nat, name: Bytes, body: Bytes)
  {
    function NameEnd(): nat { start + 110 + |name| + 1 }
    function BodyStart(): nat { Up4(NameEnd()) }
    function BodyEnd(): nat { BodyStart() + |body| }
    /** Where the next header starts. */
    function Next(): nat { Up4(BodyEnd()) }
  }

  /** A safe name that is one component, of a regular file with one link. */
  ghost predicate Proper(name: Bytes, mode: int, links: int) {
    && name != [] && name != ['.' as int] && name != ['.' as int, '.' as int]
    && (forall i | 0 <= i < |name| :: InName(name[i] as char))
    && mode >= 0 && 0x8000 <= mode % 0x1_0000 < 0x9000 && links == 1
  }

  lemma PlainIff(name: Bytes, mode: int, links: int)
    ensures Plain(name, mode, links) <==> Proper(name, mode, links)
  {
    SafeIff(name);
    RegularIff(mode);
  }

  /** A member lies at its place: header, terminated name and body are all inside the stream. */
  ghost predicate SpanAt(payload: Bytes, s: Span) {
    && NumbersAt(payload, s.start).Some?
    && var n := NumbersAt(payload, s.start).value;
       Holds(payload, s, n) && Proper(s.name, n.mode, n.links)
  }

  ghost predicate Holds(payload: Bytes, s: Span, n: Numbers) {
    && s.BodyEnd() <= |payload| && |s.name| > 0 && n.size == |s.body| && n.length == |s.name| + 1
    && payload[s.start + 110..s.NameEnd()] == s.name + [0]
    && payload[s.BodyStart()..s.BodyEnd()] == s.body
  }

  ghost function Spelled(payload: Bytes, pos: nat, at: nat): Option<int>
    requires pos + 110 <= |payload| && at < 13
  {
    HexInt(payload[pos + 6 + 8 * at..pos + 14 + 8 * at])
  }

  /** What the members and the end marker say of themselves, byte by byte. */
  lemma NumbersIff(payload: Bytes, pos: nat, n: Numbers)
    ensures NumbersAt(payload, pos) == Some(n) <==>
              && pos + 110 <= |payload| && payload[pos..pos + 6] == [48, 55, 48, 55, 48, 49]
              && (forall at | 0 <= at < 13 :: Spelled(payload, pos, at).Some?)
              && HexInt(payload[pos + 14..pos + 22]) == Some(n.mode)
              && HexInt(payload[pos + 38..pos + 46]) == Some(n.links)
              && HexInt(payload[pos + 54..pos + 62]) == Some(n.size)
              && HexInt(payload[pos + 94..pos + 102]) == Some(n.length)
  {
    hide HexInt;
    if pos + 110 <= |payload| {
      forall at | 0 <= at < 13
        ensures Field(payload, pos, at) == Spelled(payload, pos, at)
      {
        assert Slice(payload, pos + 6 + 8 * at, pos + 14 + 8 * at) == payload[pos + 6 + 8 * at..pos + 14 + 8 * at];
      }
      assert Field(payload, pos, 1) == HexInt(payload[pos + 14..pos + 22]);
      assert Field(payload, pos, 4) == HexInt(payload[pos + 38..pos + 46]);
      assert Field(payload, pos, 6) == HexInt(payload[pos + 54..pos + 62]);
      assert Field(payload, pos, 11) == HexInt(payload[pos + 94..pos + 102]);
    }
  }

  /** A regular file: of the bits of the mode that give the kind, the highest alone is set. */
  lemma RegularIff(mode: int)
    ensures Regular(mode) <==> mode >= 0 && 0x8000 <= mode % 0x1_0000 < 0x9000
  {
    if mode >= 0 {
      var q, low := mode / 4096, mode % 4096;
      assert q == q / 16 * 16 + q % 16 && mode == q / 16 * 0x1_0000 + (q % 16 * 4096 + low);
      assert mode % 0x1_0000 == q % 16 * 4096 + low;
    }
  }

  /** The end marker, after which there are only zeros. Its name may be declared too long when
      nothing follows it. */
  ghost predicate TrailerAt(payload: Bytes, pos: nat) {
    NumbersAt(payload, pos).Some? && Ends(payload, pos, NumbersAt(payload, pos).value)
  }

  ghost predicate Ends(payload: Bytes, pos: nat, n: Numbers) {
    EndsIn(payload, pos, n, [84, 82, 65, 73, 76, 69, 82, 33, 33, 33])
  }

  ghost predicate EndsIn(payload: Bytes, pos: nat, n: Numbers, last: Bytes) {
    && pos + 121 <= |payload| && payload[pos + 110..pos + 121] == last + [0]
    && n.size == 0 && n.length >= 11 && (n.length > 11 ==> |payload| == pos + 121)
    && forall i | Up4(pos + 121) <= i < |payload| :: payload[i] == 0
  }

  /** The members lie one after the other from `pos` on, up to the end marker. */
  ghost predicate Layout(payload: Bytes, pos: nat, spans: seq<Span>)
    decreases |spans|
  {
    if spans == [] then TrailerAt(payload, pos)
    else spans[0].start == pos && SpanAt(payload, spans[0]) && Layout(payload, spans[0].Next(), spans[1..])
  }

  ghost predicate DistinctNames(spans: seq<Span>) {
    forall i, j | 0 <= i < j < |spans| :: spans[i].name != spans[j].name
  }

  ghost function AsMap(spans: seq<Span>): map<Bytes, Bytes> {
    if spans == [] then map[] else map[spans[0].name := spans[0].body] + AsMap(spans[1..])
  }

  /** The spans the reader went through. */
  ghost function Spans(payload: Bytes, pos: nat): seq<Span>
    decreases |payload| + 112 - pos
  {
    var m := ReadMember(payload, pos);
    if m.None? || m.value.name == TRAILER then []
    else [Span(pos, m.value.name, m.value.body)] + Spans(payload, m.value.next)
  }

  /** A member that something follows lies wholly inside the stream. */
  lemma CutHolds(payload: Bytes, pos: nat, n: Numbers)
    requires Cut(payload, pos, n).Some?
    requires Cut(payload, pos, n).value.next + 110 <= |payload|
    ensures var m := Cut(payload, pos, n).value;
              Holds(payload, Span(pos, m.name, m.body), n) && Span(pos, m.name, m.body).Next() == m.next
  {
    hide Up4, Slice;
    var m, start := Cut(payload, pos, n).value, Up4(pos + 110 + n.length);
    assert m.next == Up4(start + n.size);
    assert pos + 110 + n.length <= start <= start + n.size <= m.next <= |payload|;
    var raw := payload[pos + 110..pos + 110 + n.length];
    assert raw == m.name + [0];
    assert m.body == payload[start..start + n.size];
    assert Span(pos, m.name, m.body).NameEnd() == pos + 110 + n.length;
  }

  lemma CutEnds(payload: Bytes, pos: nat, n: Numbers, last: Bytes)
    requires Cut(payload, pos, n).Some? && |last| == 10
    requires var m := Cut(payload, pos, n).value;
              m.name == last && m.body == [] && (m.next <= |payload| ==> AllZero(payload[m.next..]))
    ensures EndsIn(payload, pos, n, last)
  {
    var m := Cut(payload, pos, n).value;
    ZeroTail(payload, Up4(pos + 121));
    var raw := Slice(payload, pos + 110, pos + 110 + n.length);
    assert raw == m.name + [0];
    assert |raw| == 11;
    SliceIs(payload, pos + 110, pos + 110 + n.length);
    assert n.size == |m.body| == 0;
    UpTwice(pos + 110 + n.length);
    if n.length > 11 {
      assert |payload| == pos + 121;
    } else {
      assert m.next == Up4(pos + 121);
    }
  }

  lemma SliceIs(s: Bytes, a: nat, b: nat)
    requires a <= b && |Slice(s, a, b)| > 0
    ensures a + |Slice(s, a, b)| <= |s| && s[a..a + |Slice(s, a, b)|] == Slice(s, a, b)
    ensures b <= |s| || |s| == a + |Slice(s, a, b)|
  {
  }

  lemma MemberIsSpan(payload: Bytes, pos: nat)
    requires ReadMember(payload, pos).Some? && ReadMember(payload, pos).value.next + 110 <= |payload|
    requires var m := ReadMember(payload, pos).value; Plain(m.name, m.mode, m.links)
    ensures var m := ReadMember(payload, pos).value;
              SpanAt(payload, Span(pos, m.name, m.body)) && Span(pos, m.name, m.body).Next() == m.next
  {
    var m := ReadMember(payload, pos).value;
    PlainIff(m.name, m.mode, m.links);
    CutHolds(payload, pos, NumbersAt(payload, pos).value);
  }

  lemma TrailerIsAt(payload: Bytes, pos: nat)
    requires ReadMember(payload, pos).Some?
    requires var m := ReadMember(payload, pos).value;
              m.name == TRAILER && m.body == [] && (m.next <= |payload| ==> AllZero(payload[m.next..]))
    ensures TrailerAt(payload, pos)
  {
    CutEnds(payload, pos, NumbersAt(payload, pos).value, TRAILER);
  }

  lemma FollowedInside(payload: Bytes, pos: nat, seen: map<Bytes, Bytes>)
    requires Parse(payload, pos, seen).Ok?
    ensures pos + 110 <= |payload|
  {
  }

  /** Whatever is accepted is laid out, and read as what is laid out. */
  lemma {:induction false} AcceptedIsLayout(payload: Bytes, pos: nat, seen: map<Bytes, Bytes>)
    requires Parse(payload, pos, seen).Ok?
    ensures var spans := Spans(payload, pos);
      Layout(payload, pos, spans) && DistinctNames(spans) && (forall i | 0 <= i < |spans| :: spans[i].name !in seen)
      && Parse(payload, pos, seen).value == seen + AsMap(spans)
    decreases |payload| + 112 - pos
  {
    var m := ReadMember(payload, pos).value;
    if m.name == TRAILER {
      TrailerIsAt(payload, pos);
    } else {
      var next, rest := seen[m.name := m.body], Spans(payload, m.next);
      FollowedInside(payload, m.next, next);
      MemberIsSpan(payload, pos);
      AcceptedIsLayout(payload, m.next, next);
      LayoutGrows(payload, Span(pos, m.name, m.body), rest, seen);
      assert Spans(payload, pos) == [Span(pos, m.name, m.body)] + rest;
    }
  }

  lemma LayoutGrows(payload: Bytes, s: Span, rest: seq<Span>, seen: map<Bytes, Bytes>)
    requires SpanAt(payload, s) && Layout(payload, s.Next(), rest) && DistinctNames(rest) && s.name !in seen
    requires forall i | 0 <= i < |rest| :: rest[i].name !in seen[s.name := s.body]
    ensures var spans := [s] + rest;
      Layout(payload, s.start, spans) && DistinctNames(spans) && (forall i | 0 <= i < |spans| :: spans[i].name !in seen)
      && seen[s.name := s.body] + AsMap(rest) == seen + AsMap(spans)
  {
    var spans := [s] + rest;
    assert spans[1..] == rest;
    MapsJoin(seen, s.name, s.body, rest);
  }

  lemma MapsJoin(seen: map<Bytes, Bytes>, name: Bytes, body: Bytes, rest: seq<Span>)
    requires forall i | 0 <= i < |rest| :: rest[i].name != name
    ensures seen[name := body] + AsMap(rest) == seen + (map[name := body] + AsMap(rest))
  {
  }

  lemma CutWhole(payload: Bytes, pos: nat, n: Numbers, name: Bytes, body: Bytes, start: nat, next: nat)
    requires n.length > 1 && Slice(payload, pos + 110, pos + 110 + n.length) == name + [0] && Ascii(name)
    requires start == Up4(pos + 110 + n.length) && next == Up4(start + |body|)
    requires n.size == |body| && start + |body| <= |payload| && payload[start..start + |body|] == body
    ensures Cut(payload, pos, n) == Some(Member(name, n.mode, n.links, body, next))
  {
    hide Slice;
    Terminated(name);
  }

  lemma HeldIsCut(payload: Bytes, s: Span, n: Numbers)
    requires Holds(payload, s, n) && Ascii(s.name)
    ensures Cut(payload, s.start, n) == Some(Member(s.name, n.mode, n.links, s.body, s.Next()))
  {
    assert s.NameEnd() == s.start + 110 + n.length;
    CutWhole(payload, s.start, n, s.name, s.body, s.BodyStart(), s.Next());
  }

  lemma EndIsCut(payload: Bytes, pos: nat, n: Numbers, last: Bytes)
    requires pos + 121 <= |payload| && payload[pos + 110..pos + 121] == last + [0] && n.size == 0
    requires n.length == 11 || (n.length > 11 && |payload| == pos + 121)
    requires Ascii(last)
    ensures Cut(payload, pos, n) == Some(Member(last, n.mode, n.links, [], Up4(Up4(pos + 110 + n.length))))
  {
    Terminated(last);
    NameSlice(payload, pos, n.length, last);
    CutEmpty(payload, pos, n, last + [0]);
  }

  lemma Terminated(last: Bytes)
    requires Ascii(last)
    ensures var raw := last + [0]; raw[..|raw| - 1] == last && raw[|raw| - 1] == 0 && Ascii(raw)
  {
  }

  lemma ZeroTail(payload: Bytes, from: nat)
    ensures (from <= |payload| ==> AllZero(payload[from..])) <==> forall i | from <= i < |payload| :: payload[i] == 0
  {
    if from <= |payload| {
      var tail := payload[from..];
      assert forall i | from <= i < |payload| :: payload[i] == tail[i - from];
      assert forall i | 0 <= i < |tail| :: tail[i] == payload[from + i];
    }
  }

  lemma EndOfNothing(payload: Bytes, pos: nat, length: nat)
    requires pos + 121 <= |payload| && (Up4(pos + 121) <= |payload| ==> AllZero(payload[Up4(pos + 121)..]))
    requires length == 11 || (length > 11 && |payload| == pos + 121)
    ensures var next := Up4(Up4(pos + 110 + length)); next <= |payload| ==> AllZero(payload[next..])
  {
    UpTwice(pos + 110 + length);
  }

  lemma CutEmpty(payload: Bytes, pos: nat, n: Numbers, raw: Bytes)
    requires n.length > 1 && n.size == 0 && |raw| > 0 && raw == Slice(payload, pos + 110, pos + 110 + n.length)
    requires raw[|raw| - 1] == 0 && Ascii(raw)
    ensures Cut(payload, pos, n) == Some(Member(raw[..|raw| - 1], n.mode, n.links, [], Up4(Up4(pos + 110 + n.length))))
  {
    var start := Up4(pos + 110 + n.length);
    assert Slice(payload, start, start + n.size) == [];
  }

  lemma NameSlice(payload: Bytes, pos: nat, length: nat, last: Bytes)
    requires pos + 121 <= |payload| && payload[pos + 110..pos + 121] == last + [0]
    requires length == 11 || (length > 11 && |payload| == pos + 121)
    ensures Slice(payload, pos + 110, pos + 110 + length) == last + [0]
  {
  }

  /** And whatever is laid out, with distinct names, is accepted. */
  lemma {:induction false} LayoutIsAccepted(payload: Bytes, pos: nat, seen: map<Bytes, Bytes>, spans: seq<Span>)
    requires Layout(payload, pos, spans) && DistinctNames(spans) && forall i | 0 <= i < |spans| ::
              spans[i].name !in seen
    ensures Parse(payload, pos, seen) == Ok(seen + AsMap(spans))
    decreases |spans|
  {
    if spans == [] {
      EndIsParsed(payload, pos, seen);
      EmptyAfter(seen);
    } else {
      var s, rest := spans[0], spans[1..];
      RestDistinct(spans, seen);
      LayoutIsAccepted(payload, s.Next(), seen[s.name := s.body], rest);
      ParseSpan(payload, s, seen);
      MapsJoin(seen, s.name, s.body, rest);
    }
  }

  lemma EmptyAfter(seen: map<Bytes, Bytes>)
    ensures seen + AsMap([]) == seen
  {
  }

  lemma RestDistinct(spans: seq<Span>, seen: map<Bytes, Bytes>)
    requires spans != [] && DistinctNames(spans) && forall i | 0 <= i < |spans| :: spans[i].name !in seen
    ensures DistinctNames(spans[1..])
    ensures forall i | 0 <= i < |spans[1..]| ::
              spans[1..][i].name !in seen[spans[0].name := spans[0].body] && spans[1..][i].name != spans[0].name
  {
    assert forall i | 0 <= i < |spans[1..]| :: spans[1..][i] == spans[i + 1];
  }

  lemma EndIsParsed(payload: Bytes, pos: nat, seen: map<Bytes, Bytes>)
    requires TrailerAt(payload, pos)
    ensures Parse(payload, pos, seen) == Ok(seen)
  {
    TrailerCut(payload, pos, NumbersAt(payload, pos).value);
  }

  lemma TrailerCut(payload: Bytes, pos: nat, n: Numbers)
    requires Ends(payload, pos, n)
    ensures Cut(payload, pos, n).Some?
    ensures var m := Cut(payload, pos, n).value;
              m.name == TRAILER && m.body == [] && (m.next <= |payload| ==> AllZero(payload[m.next..]))
  {
    EndIsCut(payload, pos, n, TRAILER);
    ZeroTail(payload, Up4(pos + 121));
    EndOfNothing(payload, pos, n.length);
  }

  lemma PlainIsAscii(name: Bytes)
    requires SafeRelative(name)
    ensures Ascii(name)
  {
    forall i | 0 <= i < |name|
      ensures name[i] < 128
    {
      assert NameByte(name[i]);
    }
  }

  lemma SpanIsRead(payload: Bytes, s: Span)
    requires SpanAt(payload, s)
    ensures ReadMember(payload, s.start).Some?
    ensures var m := ReadMember(payload, s.start).value;
              m.name == s.name != TRAILER && m.body == s.body && m.next == s.Next() && Plain(m.name, m.mode, m.links)
  {
    var n := NumbersAt(payload, s.start).value;
    PlainIff(s.name, n.mode, n.links);
    PlainIsAscii(s.name);
    HeldIsCut(payload, s, NumbersAt(payload, s.start).value);
    SafeIsComponent(s.name);
  }

  lemma ParseSpan(payload: Bytes, s: Span, seen: map<Bytes, Bytes>)
    requires SpanAt(payload, s) && s.name !in seen
    ensures Parse(payload, s.start, seen) == Parse(payload, s.Next(), seen[s.name := s.body])
  {
    SpanIsRead(payload, s);
  }

  lemma AcceptedHasLayout(payload: Bytes)
    requires Parse(payload, 0, map[]).Ok?
    ensures Layout(payload, 0, Spans(payload, 0)) && DistinctNames(Spans(payload, 0))
    ensures Parse(payload, 0, map[]).value == AsMap(Spans(payload, 0))
  {
    AcceptedIsLayout(payload, 0, map[]);
    EmptyJoin(AsMap(Spans(payload, 0)));
  }

  lemma LayoutHasResult(payload: Bytes, spans: seq<Span>)
    requires Layout(payload, 0, spans) && DistinctNames(spans)
    ensures Parse(payload, 0, map[]) == Ok(AsMap(spans))
  {
    EmptyJoin(AsMap(spans));
    LayoutIsAccepted(payload, 0, map[], spans);
  }

  lemma EmptyJoin(m: map<Bytes, Bytes>)
    ensures map[] + m == m
  {
  }

  /** On every stream: accepted exactly when it is a layout of distinct names, with that result. */
  lemma AcceptedIff(payload: Bytes, r: map<Bytes, Bytes>)
    ensures Parse(payload, 0, map[]) == Ok(r) <==>
              exists spans :: Layout(payload, 0, spans) && DistinctNames(spans) && r == AsMap(spans)
  {
    if Parse(payload, 0, map[]) == Ok(r) {
      AcceptedHasLayout(payload);
    } else {
      forall spans | Layout(payload, 0, spans) && DistinctNames(spans)
        ensures r != AsMap(spans)
      {
        LayoutHasResult(payload, spans);
      }
    }
  }

  /** In a layout the members come in order without overlap, less than four bytes apart, each at
      least 112 bytes long. */
  lemma {:induction false} InOrder(payload: Bytes, pos: nat, spans: seq<Span>, i: nat)
    requires Layout(payload, pos, spans) && i < |spans|
    ensures pos <= spans[i].start && spans[i].start + 112 <= spans[i].Next()
    ensures i == 0 ==> spans[i].start == pos
    ensures i + 1 < |spans| ==> spans[i].BodyEnd() <= spans[i + 1].start == spans[i].Next() < spans[i].BodyEnd() + 4
    ensures i + 1 == |spans| ==> TrailerAt(payload, spans[i].Next())
    decreases |spans|
  {
    if i > 0 { InOrder(payload, spans[0].Next(), spans[1..], i - 1); }
  }

  lemma {:induction false} InMap(spans: seq<Span>, i: nat)
    requires i < |spans| && DistinctNames(spans)
    ensures spans[i].name in AsMap(spans) && AsMap(spans)[spans[i].name] == spans[i].body
  {
    if i == 0 {
      if spans[0].name in AsMap(spans[1..]) { FromMap(spans[1..], spans[0].name); }
    } else {
      assert forall j | 0 <= j < |spans[1..]| :: spans[1..][j] == spans[j + 1];
      InMap(spans[1..], i - 1);
    }
  }

  lemma {:induction false} FromMap(spans: seq<Span>, name: Bytes)
    requires name in AsMap(spans)
    ensures exists i :: 0 <= i < |spans| && spans[i].name == name && spans[i].body == AsMap(spans)[name]
  {
    if name in AsMap(spans[1..]) {
      FromMap(spans[1..], name);
      var i :| 0 <= i < |spans[1..]| && spans[1..][i].name == name && spans[1..][i].body == AsMap(spans[1..])[name];
      assert spans[i + 1] == spans[1..][i];
    } else {
      assert spans[0].name == name;
    }
  }

  lemma {:induction false} EachSpanIsAt(payload: Bytes, pos: nat, spans: seq<Span>, i: nat)
    requires Layout(payload, pos, spans) && i < |spans|
    ensures SpanAt(payload, spans[i])
    decreases |spans|
  {
    if i > 0 { EachSpanIsAt(payload, spans[0].Next(), spans[1..], i - 1); }
  }

  /** Every key of an accepted stream is one safe path component, of a regular single-link
      member whose body lies in the stream. */
  lemma AcceptedKeys(payload: Bytes, name: Bytes)
    requires Parse(payload, 0, map[]).Ok? && name in Parse(payload, 0, map[]).value
    ensures SafeRelative(name) && SLASH !in name && name !in [[], [DOT], [DOT, DOT], TRAILER]
    ensures name !in [['.' as int], ['.' as int, '.' as int]] && forall i | 0 <= i < |name| :: InName(name[i] as char)
    ensures exists s: Span :: SpanAt(payload, s) && s.name == name && s.body == Parse(payload, 0, map[]).value[name]
  {
    var spans := Spans(payload, 0);
    AcceptedHasLayout(payload);
    FromMap(spans, name);
    var i :| 0 <= i < |spans| && spans[i].name == name && spans[i].body == AsMap(spans)[name];
    EachSpanIsAt(payload, 0, spans, i);
    var n := NumbersAt(payload, spans[i].start).value;
    PlainIff(name, n.mode, n.links);
    SafeIsComponent(name);
  }
}
