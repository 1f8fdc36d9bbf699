/** scripts/test-static-crypto.py lines 55-64: the writer, and its round trip through the reader. */
module RpmWriter {
  import opened Outcomes
  import opened Bytes
  import opened Rpm

  datatype Entry = Entry(name: Bytes, body: Bytes, mode: nat)

  const LIMIT: nat := 0x1_0000_0000

  /** "%08x": eight digits, or as many as the number needs. */
  function Hex08(n: nat): Bytes {
    if n < LIMIT then Hex(n, 8) else Hex08(n / 16) + [HexDigit(n % 16)]
  }

  /** It spells every number, with leading zeros up to eight digits only. */
  lemma {:induction false} Hex08Spells(n: nat)
    ensures |Hex08(n)| >= 8 && DigitRun(Hex08(n)) == Some(n) && ReadDigits(Hex08(n), false) == Some(n)
    ensures |Hex08(n)| > 8 <==> n >= 0x1_0000_0000
    ensures n >= 0x1000_0000 ==> Hex08(n)[0] != 48
  {
    hide ReadDigits;
    assert Power16(8) == 0x1_0000_0000;
    if n < LIMIT {
      HexRead(n, 8, true);
      HexRead(n, 8, false);
      FirstDigit(n, 8);
      assert Power16(7) == 0x1000_0000;
    } else {
      Hex08Spells(n / 16);
      LastDigit(Hex08(n / 16), HexDigit(n % 16), true);
      LastDigit(Hex08(n / 16), HexDigit(n % 16), false);
    }
  }

  lemma {:induction false} FirstDigit(n: nat, width: nat)
    requires 0 < width && n < Power16(width)
    ensures Hex(n, width)[0] == 48 ==> n < Power16(width - 1)
  {
    if width > 1 {
      FirstDigit(n / 16, width - 1);
      assert Hex(n, width)[0] == Hex(n / 16, width - 1)[0];
    }
  }

  function Fields(ns: seq<nat>): Bytes {
    if ns == [] then [] else Hex08(ns[0]) + Fields(ns[1..])
  }

  function Numbers13(e: Entry): (ns: seq<nat>)
    ensures |ns| == 13
  {
    [1, e.mode, 0, 0, 1, 0, |e.body|, 0, 0, 0, 0, |e.name| + 1, 0]
  }

  /** An inode number, the mode, one link, the size and the length; the other fields are 0. */
  lemma NumbersOf(e: Entry)
    ensures var ns := Numbers13(e);
      && ns[0] == 1 && ns[1] == e.mode && ns[4] == 1 && ns[6] == |e.body| && ns[11] == |e.name| + 1
      && forall k | 0 <= k < 13 && k !in {0, 1, 4, 6, 11} :: ns[k] == 0
  {
  }

  function Pad4(s: Bytes): (r: Bytes)
    ensures s <= r && |r| == Up4(|s|)
  {
    s + Zeros(Up4(|s|) - |s|)
  }

  function Named(out: Bytes, e: Entry): Bytes { out + (MAGIC + Fields(Numbers13(e)) + (e.name + [0])) }

  /** One turn of the writer's loop. */
  function Append(out: Bytes, e: Entry): Bytes { Pad4(Pad4(Named(out, e)) + e.body) }

  const END: Entry := Entry(TRAILER, [], 0)

  function Payload(out: Bytes, entries: seq<Entry>): Bytes
    decreases |entries|
  {
    if entries == [] then Append(out, END) else Payload(Append(out, entries[0]), entries[1..])
  }

  const FRONT: Bytes := LEAD + Zeros(92)
  const EMPTY_HEADER: Bytes := HEADER + Zeros(12)

  function RpmBytes(entries: seq<Entry>, gzip: Bytes -> Bytes): Bytes {
    FRONT + EMPTY_HEADER + EMPTY_HEADER + gzip(Payload([], entries))
  }

  /** The header can hold the sizes. */
  ghost predicate Fits(e: Entry) { |e.body| < LIMIT && |e.name| + 1 < LIMIT }

  ghost predicate Writable(e: Entry) { Proper(e.name, e.mode, 1) && e.mode < LIMIT }

  /** A part of the middle of three strings. */
  lemma Middle(a: Bytes, b: Bytes, c: Bytes, i: nat, j: nat)
    requires i <= j <= |b|
    ensures (a + b + c)[|a| + i..|a| + j] == b[i..j]
  {
  }

  lemma {:induction false} FieldsLength(ns: seq<nat>)
    requires forall i | 0 <= i < |ns| :: ns[i] < LIMIT
    ensures |Fields(ns)| == 8 * |ns|
  {
    if ns != [] { FieldsLength(ns[1..]); }
  }

  lemma {:induction false} FieldsAt(ns: seq<nat>, k: nat)
    requires k < |ns| && forall i | 0 <= i < |ns| :: ns[i] < LIMIT
    ensures |Fields(ns)| == 8 * |ns| && Fields(ns)[8 * k..8 * k + 8] == Hex(ns[k], 8)
  {
    var head, tail := Hex(ns[0], 8), Fields(ns[1..]);
    FieldsLength(ns);
    FieldsLength(ns[1..]);
    assert Fields(ns) == head + tail;
    if k > 0 {
      FieldsAt(ns[1..], k - 1);
      TailPart(head, tail, 8 * (k - 1), 8 * (k - 1) + 8);
    }
  }

  lemma TailPart(a: Bytes, b: Bytes, i: nat, j: nat)
    requires i <= j <= |b|
    ensures (a + b)[|a| + i..|a| + j] == b[i..j]
  {
  }

  lemma FieldWritten(front: Bytes, ns: seq<nat>, back: Bytes, k: nat)
    requires k < |ns| == 13 && |front| >= 6 && forall i | 0 <= i < |ns| :: ns[i] < LIMIT
    ensures Field(front + Fields(ns) + back, |front| - 6, k) == Some(ns[k])
  {
    FieldsAt(ns, k);
    FieldAmid(front, Fields(ns), back, k, Hex(ns[k], 8));
    HexIntRead(ns[k]);
  }

  lemma FieldAmid(front: Bytes, fields: Bytes, back: Bytes, k: nat, digits: Bytes)
    requires |front| >= 6 && |fields| == 104 && k < 13 && fields[8 * k..8 * k + 8] == digits
    ensures Field(front + fields + back, |front| - 6, k) == HexInt(digits)
  {
    Middle(front, fields, back, 8 * k, 8 * k + 8);
    FieldIs(front + fields + back, |front| - 6, k, digits);
  }

  lemma FieldIs(s: Bytes, pos: nat, k: nat, digits: Bytes)
    requires pos + 14 + 8 * k <= |s| && s[pos + 6 + 8 * k..pos + 14 + 8 * k] == digits
    ensures Field(s, pos, k) == HexInt(digits)
  {
  }

  lemma NumbersFrom(s: Bytes, pos: nat, ns: seq<nat>)
    requires |ns| == 13 && pos + 110 <= |s| && s[pos..pos + 6] == MAGIC && forall k | 0 <= k < 13 ::
              Field(s, pos, k) == Some(ns[k])
    ensures NumbersAt(s, pos) == Some(Numbers(ns[1], ns[4], ns[6], ns[11]))
  {
  }

  lemma NamedParts(out: Bytes, fields: Bytes, back: Bytes)
    ensures out + (MAGIC + fields + back) == out + MAGIC + fields + back
    ensures (out + MAGIC + fields + back)[|out|..|out| + 6] == MAGIC
    ensures (out + MAGIC + fields + back)[|out| + 6 + |fields|..] == back
  {
    Regroup(out, MAGIC + fields, back);
    Regroup(out, MAGIC, fields);
    Middle(out, MAGIC, fields + back, 0, 6);
    Regroup(out + MAGIC, fields, back);
  }

  lemma HeaderWritten(out: Bytes, e: Entry)
    requires Fits(e) && e.mode < LIMIT
    ensures var s := Named(out, e); |s| == |out| + 110 + |e.name| + 1 && out <= s && s[|out| + 110..] == e.name + [0]
    ensures NumbersAt(Named(out, e), |out|) == Some(Numbers(e.mode, 1, |e.body|, |e.name| + 1))
  {
    var ns, back := Numbers13(e), e.name + [0];
    FieldsLength(ns);
    NamedParts(out, Fields(ns), back);
    forall k | 0 <= k < 13
      ensures Field(Named(out, e), |out|, k) == Some(ns[k])
    {
      FieldWritten(out + MAGIC, ns, back, k);
    }
    NumbersFrom(Named(out, e), |out|, ns);
  }

  /** Reading inside a stream does not depend on what follows. */
  lemma NumbersExtend(a: Bytes, b: Bytes, pos: nat)
    requires a <= b && NumbersAt(a, pos).Some?
    ensures NumbersAt(b, pos) == NumbersAt(a, pos)
  {
    assert b[pos..pos + 6] == a[pos..pos + 6];
    forall k | 0 <= k < 13
      ensures Field(b, pos, k) == Field(a, pos, k)
    {
      assert b[pos + 6 + 8 * k..pos + 14 + 8 * k] == a[pos + 6 + 8 * k..pos + 14 + 8 * k];
    }
  }

  lemma SpanExtends(a: Bytes, b: Bytes, s: Span)
    requires a <= b && SpanAt(a, s)
    ensures SpanAt(b, s)
  {
    NumbersExtend(a, b, s.start);
    HoldsExtends(a, b, s, NumbersAt(a, s.start).value);
  }

  lemma HoldsExtends(a: Bytes, b: Bytes, s: Span, n: Numbers)
    requires a <= b && Holds(a, s, n)
    ensures Holds(b, s, n)
  {
    SliceExtends(a, b, s.start + 110, s.NameEnd());
    SliceExtends(a, b, s.BodyStart(), s.BodyEnd());
  }

  lemma SliceExtends(a: Bytes, b: Bytes, i: nat, j: nat)
    requires a <= b && i <= j <= |a|
    ensures b[i..j] == a[i..j]
  {
  }

  lemma Appended(out: Bytes, e: Entry)
    requires |out| % 4 == 0 && Fits(e) && e.mode < LIMIT && |e.name| > 0
    ensures var s := Span(|out|, e.name, e.body);
      out <= Append(out, e) && |Append(out, e)| == s.Next()
      && NumbersAt(Append(out, e), |out|) == Some(Numbers(e.mode, 1, |e.body|, |e.name| + 1))
      && Holds(Append(out, e), s, Numbers(e.mode, 1, |e.body|, |e.name| + 1))
  {
    var s, named, all := Span(|out|, e.name, e.body), Named(out, e), Append(out, e);
    HeaderWritten(out, e);
    Held(named, all, s, Numbers(e.mode, 1, |e.body|, |e.name| + 1));
    NumbersExtend(named, all, |out|);
  }

  lemma Held(named: Bytes, all: Bytes, s: Span, n: Numbers)
    requires |named| == s.start + 110 + |s.name| + 1 && named[s.start + 110..] == s.name + [0]
    requires all == Pad4(Pad4(named) + s.body) && |s.name| > 0 && n.size == |s.body| && n.length == |s.name| + 1
    ensures named <= all && |all| == s.Next() && Holds(all, s, n)
  {
    PaddedParts(named, s.body, all);
    assert s.NameEnd() == |named|;
    SliceExtends(named, all, s.start + 110, |named|);
  }

  /** Where the name and the body of an entry end up. */
  lemma PaddedParts(named: Bytes, body: Bytes, all: Bytes)
    requires all == Pad4(Pad4(named) + body)
    ensures named <= all && |all| == Up4(Up4(|named|) + |body|) && Up4(|named|) + |body| <= |all|
    ensures all[Up4(|named|)..Up4(|named|) + |body|] == body
  {
    var padded := Pad4(named) + body;
    assert named <= Pad4(named) <= padded <= all;
    SliceExtends(padded, all, Up4(|named|), Up4(|named|) + |body|);
    assert padded[Up4(|named|)..] == body;
  }

  ghost function SpansOf(pos: nat, entries: seq<Entry>): (spans: seq<Span>)
    ensures |spans| == |entries|
    ensures forall i | 0 <= i < |spans| :: spans[i].name == entries[i].name && spans[i].body == entries[i].body
    decreases |entries|
  {
    if entries == [] then []
    else
      var s := Span(pos, entries[0].name, entries[0].body);
      [s] + SpansOf(s.Next(), entries[1..])
  }

  lemma {:induction false} PayloadExtends(out: Bytes, entries: seq<Entry>)
    ensures out <= Payload(out, entries)
    decreases |entries|
  {
    var e := if entries == [] then END else entries[0];
    PaddedParts(Named(out, e), e.body, Append(out, e));
    assert out <= Named(out, e) <= Append(out, e);
    if entries != [] { PayloadExtends(Append(out, e), entries[1..]); }
  }

  lemma HoldsEnds(payload: Bytes, pos: nat, n: Numbers)
    requires Holds(payload, Span(pos, TRAILER, []), n) && |payload| == Span(pos, TRAILER, []).Next()
    ensures Ends(payload, pos, n)
  {
  }

  lemma EndWritten(out: Bytes)
    requires |out| % 4 == 0
    ensures TrailerAt(Append(out, END), |out|)
  {
    Appended(out, END);
    HoldsEnds(Append(out, END), |out|, Numbers(0, 1, 0, 11));
  }

  lemma PaddedAligned(s: Bytes)
    ensures |Pad4(s)| % 4 == 0
  {
  }

  lemma {:induction false} Written(out: Bytes, entries: seq<Entry>)
    requires |out| % 4 == 0 && forall i | 0 <= i < |entries| :: Fits(entries[i]) && Writable(entries[i])
    ensures Layout(Payload(out, entries), |out|, SpansOf(|out|, entries))
    decreases |entries|
  {
    if entries == [] {
      EndWritten(out);
    } else {
      var e, rest := entries[0], entries[1..];
      var s, next := Span(|out|, e.name, e.body), Append(out, e);
      Appended(out, e);
      PaddedAligned(Pad4(Named(out, e)) + e.body);
      PayloadExtends(next, rest);
      SpanExtends(next, Payload(next, rest), s);
      Written(next, rest);
      assert SpansOf(|out|, entries) == [s] + SpansOf(s.Next(), rest);
    }
  }

  /** A header with no index and no data, wherever it stands. */
  lemma EmptyHeader(front: Bytes, h: Bytes, back: Bytes)
    requires |h| == 16 && h[0..4] == HEADER && h[8..12] == Zeros(4) && h[12..16] == Zeros(4)
    ensures HeaderEnd(front + h + back, |front|) == Some(|front| + 16)
  {
    Middle(front, h, back, 0, 4);
    Middle(front, h, back, 8, 12);
    Middle(front, h, back, 12, 16);
    assert Big32(Zeros(4)) == 0;
  }

  lemma StartOf(front: Bytes, h: Bytes, z: Bytes)
    requires |front| == 96 && front[..4] == LEAD
    requires |h| == 16 && h[0..4] == HEADER && h[8..12] == Zeros(4) && h[12..16] == Zeros(4)
    ensures PayloadStart(front + h + h + z) == Some(128) && (front + h + h + z)[128..] == z
  {
    var data := front + h + h + z;
    EmptyHeader(front, h, h + z);
    Regroup(front + h, h, z);
    EmptyHeader(front + h, h, z);
    assert data[..4] == front[..4];
  }

  lemma Start(entries: seq<Entry>, gzip: Bytes -> Bytes)
    ensures PayloadStart(RpmBytes(entries, gzip)) == Some(128)
            && RpmBytes(entries, gzip)[128..] == gzip(Payload([], entries))
  {
    var h := EMPTY_HEADER;
    assert FRONT[..4] == LEAD && h[0..4] == HEADER && h[8..12] == Zeros(4) && h[12..16] == Zeros(4);
    StartOf(FRONT, h, gzip(Payload([], entries)));
  }

  ghost predicate DistinctEntries(entries: seq<Entry>) {
    forall i, j | 0 <= i < j < |entries| :: entries[i].name != entries[j].name
  }

  ghost function EntryMap(entries: seq<Entry>): map<Bytes, Bytes> { AsMap(SpansOf(0, entries)) }

  /** The map holds each entry's body under its name, and nothing else. */
  lemma ExactlyTheEntries(entries: seq<Entry>, name: Bytes)
    requires DistinctEntries(entries)
    ensures name in EntryMap(entries) <==> exists i :: 0 <= i < |entries| && entries[i].name == name
    ensures forall i | 0 <= i < |entries| && entries[i].name == name :: EntryMap(entries)[name] == entries[i].body
  {
    var spans := SpansOf(0, entries);
    forall i | 0 <= i < |entries|
      ensures entries[i].name in EntryMap(entries) && EntryMap(entries)[entries[i].name] == entries[i].body
    {
      InMap(spans, i);
    }
    if name in EntryMap(entries) { FromMap(spans, name); }
  }

  /** Parsing undoes writing, for every list of distinct safe names with arbitrary bodies whose
      sizes fit the header. */
  lemma RoundTrip(entries: seq<Entry>, gzip: Bytes -> Bytes, gunzip: Bytes -> Option<Bytes>)
    requires forall x :: gunzip(gzip(x)) == Some(x)
    requires DistinctEntries(entries) && forall i | 0 <= i < |entries| :: Fits(entries[i]) && Writable(entries[i])
    ensures Sources(RpmBytes(entries, gzip), gunzip) == Ok(EntryMap(entries))
  {
    Start(entries, gzip);
    Written([], entries);
    LayoutHasResult(Payload([], entries), SpansOf(0, entries));
  }

  /** A laid-out member has sizes that fit: eight characters spell no more. */
  lemma {:induction false} LaidOutFits(payload: Bytes, pos: nat, spans: seq<Span>, i: nat)
    requires Layout(payload, pos, spans) && i < |spans|
    ensures |spans[i].body| < LIMIT && |spans[i].name| + 1 < LIMIT
    decreases |spans|
  {
    if i == 0 {
      HexIntBound(Slice(payload, pos + 54, pos + 62));
      HexIntBound(Slice(payload, pos + 94, pos + 102));
    } else {
      LaidOutFits(payload, spans[0].Next(), spans[1..], i - 1);
    }
  }

  lemma UnfitIsLost(entries: seq<Entry>, i: nat, payload: Bytes)
    requires DistinctEntries(entries) && i < |entries| && !Fits(entries[i])
    ensures Parse(payload, 0, map[]) != Ok(EntryMap(entries))
  {
    if Parse(payload, 0, map[]) == Ok(EntryMap(entries)) {
      var spans := Spans(payload, 0);
      AcceptedHasLayout(payload);
      InMap(SpansOf(0, entries), i);
      FromMap(spans, entries[i].name);
      var j :| 0 <= j < |spans| && spans[j].name == entries[i].name && spans[j].body == AsMap(spans)[entries[i].name];
      LaidOutFits(payload, 0, spans, j);
    }
  }

  /** The round trip holds exactly for the lists whose sizes fit. */
  lemma RoundTripIff(entries: seq<Entry>, gzip: Bytes -> Bytes, gunzip: Bytes -> Option<Bytes>)
    requires forall x :: gunzip(gzip(x)) == Some(x)
    requires DistinctEntries(entries) && forall i | 0 <= i < |entries| :: Writable(entries[i])
    ensures Sources(RpmBytes(entries, gzip), gunzip) == Ok(EntryMap(entries)) <==> forall i | 0 <= i < |entries| ::
              Fits(entries[i])
  {
    if forall i | 0 <= i < |entries| :: Fits(entries[i]) {
      RoundTrip(entries, gzip, gunzip);
    } else {
      var i :| 0 <= i < |entries| && !Fits(entries[i]);
      Start(entries, gzip);
      UnfitIsLost(entries, i, Payload([], entries));
    }
  }

  /** Nothing but an end marker, whose name is declared to be `length` bytes long and has eleven. */
  ghost function Marker(length: nat): Bytes { MAGIC + Fields(MarkerNumbers(length)) + (TRAILER + [0]) }

  ghost function MarkerNumbers(length: nat): (ns: seq<nat>)
    ensures |ns| == 13 && ns[1] == 0 && ns[4] == 1 && ns[6] == 0 && ns[11] == length
    ensures length < LIMIT ==> forall i | 0 <= i < 13 :: ns[i] < LIMIT
  {
    [1, 0, 0, 0, 1, 0, 0, 0, 0, 0, 0, length, 0]
  }

  lemma HeaderAlone(ns: seq<nat>, back: Bytes)
    requires |ns| == 13 && forall i | 0 <= i < 13 :: ns[i] < LIMIT
    ensures var s := MAGIC + Fields(ns) + back;
            |s| == 110 + |back| && s[110..] == back && NumbersAt(s, 0) == Some(Numbers(ns[1], ns[4], ns[6], ns[11]))
  {
    var s := MAGIC + Fields(ns) + back;
    FieldsLength(ns);
    assert s[0..6] == MAGIC;
    forall k | 0 <= k < 13 ensures Field(s, 0, k) == Some(ns[k]) {
      FieldWritten(MAGIC, ns, back, k);
    }
    NumbersFrom(s, 0, ns);
  }

  /** However much too long the name is declared, the slice ends with the stream and the marker is
      accepted: for length 12 these are 121 bytes of which one is missing. */
  lemma TooLongNameAccepted(length: nat)
    requires 11 <= length < LIMIT
    ensures |Marker(length)| == 121 && NumbersAt(Marker(length), 0) == Some(Numbers(0, 1, 0, length))
    ensures Parse(Marker(length), 0, map[]) == Ok(map[])
  {
    hide Fields, MarkerNumbers, NumbersAt, Parse, TrailerAt;
    HeaderAlone(MarkerNumbers(length), TRAILER + [0]);
    MarkerEnds(Marker(length), TRAILER + [0], length);
    EndIsParsed(Marker(length), 0, map[]);
  }

  lemma MarkerEnds(payload: Bytes, back: Bytes, length: nat)
    requires |payload| == 121 && payload[110..] == back && back == TRAILER + [0] && length >= 11
    requires NumbersAt(payload, 0) == Some(Numbers(0, 1, 0, length))
    ensures TrailerAt(payload, 0)
  {
    assert payload[110..121] == payload[110..];
  }
}
