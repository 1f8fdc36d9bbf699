/** Byte strings, Python's hexadecimal `int`, and its slices. */
module Bytes {
  import opened Outcomes

  type byte = x: int | 0 <= x < 256

  type Bytes = seq<byte>

  /** s[a:b] for 0 <= a <= b. */
  function Slice(s: Bytes, a: nat, b: nat): (r: Bytes)
    requires a <= b
    ensures |r| <= b - a
    ensures b <= |s| ==> r == s[a..b]
    ensures |r| == b - a > 0 ==> b <= |s|
  {
    if b <= |s| then s[a..b] else if a <= |s| then s[a..] else []
  }

  function Zeros(n: nat): Bytes { seq(n, _ => 0) }

  predicate AllZero(s: Bytes) { forall i | 0 <= i < |s| :: s[i] == 0 }

  // int(s, 16) on a byte string.

  predicate Space(b: byte) { b == 32 || 9 <= b <= 13 }

  function DigitValue(b: byte): Option<nat> {
    if 48 <= b <= 57 then Some(b - 48)
    else if 97 <= b <= 102 then Some(b - 87)
    else if 65 <= b <= 70 then Some(b - 55)
    else None
  }

  const UNDERSCORE: byte := 95

  function TrimLeft(s: Bytes): Bytes { if s != [] && Space(s[0]) then TrimLeft(s[1..]) else s }

  function TrimRight(s: Bytes): Bytes { if s != [] && Space(s[|s| - 1]) then TrimRight(s[..|s| - 1]) else s }

  /** Digits, with single underscores allowed between them; `edge` says that an underscore or the
      end follows. */
  function ReadDigits(s: Bytes, edge: bool): Option<nat> {
    if s == [] then if edge then None else Some(0)
    else
      var init, last := s[..|s| - 1], s[|s| - 1];
      if last == UNDERSCORE then if edge then None else ReadDigits(init, true)
      else if DigitValue(last).None? then None
      else
        var head := ReadDigits(init, false);
        if head.None? then None else Some(16 * head.value + DigitValue(last).value)
  }

  function DigitRun(s: Bytes): Option<nat> { ReadDigits(s, true) }

  function Unsigned(s: Bytes): Option<nat> {
    if |s| >= 2 && s[0] == 48 && (s[1] == 120 || s[1] == 88) then
      DigitRun(if |s| >= 3 && s[2] == UNDERSCORE then s[3..] else s[2..])
    else DigitRun(s)
  }

  function HexInt(s: Bytes): Option<int> {
    var t := TrimRight(TrimLeft(s));
    if t != [] && (t[0] == 43 || t[0] == 45) then
      var u := Unsigned(t[1..]);
      if u.None? then None
      else
        var magnitude: int := u.value;
        Some(if t[0] == 45 then -magnitude else magnitude)
    else
      var u := Unsigned(t);
      if u.None? then None else Some(u.value)
  }

  ghost function Power16(n: nat): (p: nat)
    ensures p > 0
  {
    if n == 0 then 1 else 16 * Power16(n - 1)
  }

  lemma {:induction false} DigitsBound(s: Bytes, edge: bool)
    ensures ReadDigits(s, edge).Some? ==> ReadDigits(s, edge).value < Power16(|s|)
  {
    if s != [] {
      DigitsBound(s[..|s| - 1], s[|s| - 1] == UNDERSCORE);
      assert Power16(|s|) == 16 * Power16(|s| - 1);
    }
  }

  lemma {:induction false} TrimShorter(s: Bytes)
    ensures |TrimLeft(s)| <= |s| && |TrimRight(s)| <= |s|
    decreases |s|
  {
    if s != [] {
      TrimShorter(s[1..]);
      TrimShorter(s[..|s| - 1]);
    }
  }

  lemma {:induction false} PowerMonotone(m: nat, n: nat)
    requires m <= n
    ensures Power16(m) <= Power16(n)
  {
    if m < n { PowerMonotone(m, n - 1); }
  }

  /** Eight characters never spell a number of 2^32 or more. */
  lemma HexIntBound(s: Bytes)
    requires |s| == 8
    ensures HexInt(s).Some? ==> HexInt(s).value < 0x1_0000_0000
  {
    var t := TrimRight(TrimLeft(s));
    TrimShorter(s);
    TrimShorter(TrimLeft(s));
    var u := if t != [] && (t[0] == 43 || t[0] == 45) then t[1..] else t;
    var prefixed := |u| >= 2 && u[0] == 48 && (u[1] == 120 || u[1] == 88);
    var d := if !prefixed then u else if |u| >= 3 && u[2] == UNDERSCORE then u[3..] else u[2..];
    DigitsBound(d, true);
    PowerMonotone(|d|, 8);
    assert Power16(8) == 0x1_0000_0000;
  }

  // What is a number, stated without the reader.

  ghost predicate White(s: Bytes) { forall i | 0 <= i < |s| :: s[i] in {9, 10, 11, 12, 13, 32} }

  ghost predicate DigitIs(b: byte, v: nat) {
    v < 16 && (b as char == "0123456789abcdef"[v] || b as char == "0123456789ABCDEF"[v])
  }

  /** Digits that spell the number, where one underscore may stand between two of them. */
  ghost predicate Run(s: Bytes, v: nat)
    decreases |s|
  {
    && s != [] && DigitIs(s[|s| - 1], v % 16)
    && if |s| == 1 then v < 16
       else Run(s[..|s| - 1], v / 16) || (|s| > 2 && s[|s| - 2] as char == '_' && Run(s[..|s| - 2], v / 16))
  }

  /** With or without 0x in front, and an underscore behind that. */
  ghost predicate Spelled(s: Bytes, v: int) {
    && v >= 0
    && (Run(s, v)
        || (|s| > 2 && s[0] as char == '0' && (s[1] as char == 'x' || s[1] as char == 'X')
            && (Run(s[2..], v) || (s[2] as char == '_' && Run(s[3..], v)))))
  }

  ghost predicate Signed(s: Bytes, v: int) {
    s != [] && if s[0] as char == '-' then Spelled(s[1..], -v) else if s[0] as char == '+' then Spelled(s[1..], v)
      else Spelled(s, v)
  }

  /** White space around a number. */
  ghost predicate Numeric(s: Bytes, v: int) {
    exists a, b | 0 <= a <= b <= |s| :: White(s[..a]) && White(s[b..]) && Signed(s[a..b], v)
  }

  lemma DigitIff(b: byte, v: nat)
    ensures DigitValue(b) == Some(v) <==> DigitIs(b, v)
  {
    var low, high := "0123456789abcdef", "0123456789ABCDEF";
    if v < 10 {
      assert low[v] as int == 48 + v && high[v] as int == 48 + v;
    } else if v < 16 {
      assert low[v] as int == 87 + v && high[v] as int == 55 + v;
    }
  }

  lemma {:induction false} RunIff(s: Bytes, v: nat)
    ensures ReadDigits(s, true) == Some(v) <==> Run(s, v)
    ensures ReadDigits(s, false) == Some(v) <==>
              (s == [] && v == 0) || Run(s, v) || (|s| > 1 && s[|s| - 1] as char == '_' && Run(s[..|s| - 1], v))
    decreases |s|
  {
    hide DigitIs;
    if s != [] {
      var init, last := s[..|s| - 1], s[|s| - 1];
      DigitIff(last, v % 16);
      RunIff(init, v / 16);
      RunIff(init, v);
      if DigitValue(last).Some? { DigitIff(last, DigitValue(last).value); }
      if |s| > 2 { assert init[..|init| - 1] == s[..|s| - 2]; }
    }
  }

  lemma {:induction false} RunEdges(s: Bytes, v: nat)
    requires Run(s, v)
    ensures DigitValue(s[0]).Some? && DigitValue(s[|s| - 1]).Some?
    ensures |s| > 1 ==> s[1] as char == '_' || DigitValue(s[1]).Some?
    decreases |s|
  {
    DigitIff(s[|s| - 1], v % 16);
    if |s| > 1 {
      if Run(s[..|s| - 1], v / 16) { RunEdges(s[..|s| - 1], v / 16); } else { RunEdges(s[..|s| - 2], v / 16); }
    }
  }

  lemma UnsignedIff(s: Bytes, v: nat)
    ensures Unsigned(s) == Some(v) <==> Spelled(s, v)
  {
    if Run(s, v) { RunEdges(s, v); }
    RunIff(s, v);
    if |s| >= 2 {
      RunIff(s[2..], v);
      if |s| >= 3 {
        RunIff(s[3..], v);
        if Run(s[2..], v) { RunEdges(s[2..], v); }
      }
    }
  }

  /** What trimming leaves. */
  lemma {:induction false} TrimmedLeft(s: Bytes) returns (a: nat)
    ensures a <= |s| && TrimLeft(s) == s[a..] && White(s[..a]) && (a < |s| ==> !Space(s[a]))
  {
    a := 0;
    if s != [] && Space(s[0]) {
      var rest := TrimmedLeft(s[1..]);
      a := rest + 1;
      assert s[..a] == [s[0]] + s[1..][..rest] && s[a..] == s[1..][rest..];
    }
  }

  lemma {:induction false} TrimmedRight(s: Bytes) returns (b: nat)
    ensures b <= |s| && TrimRight(s) == s[..b] && White(s[b..]) && (b > 0 ==> !Space(s[b - 1]))
  {
    b := |s|;
    if s != [] && Space(s[|s| - 1]) {
      var init := s[..|s| - 1];
      b := TrimmedRight(init);
      assert s[b..] == init[b..] + [s[|s| - 1]] && s[..b] == init[..b];
    }
  }

  /** There is one way to take white space off both ends of something that has none there. */
  lemma OneCore(s: Bytes, a: nat, b: nat, c: nat, d: nat)
    requires a < b <= |s| && White(s[..a]) && White(s[b..]) && !Space(s[a]) && !Space(s[b - 1])
    requires c <= d <= |s| && White(s[..c]) && White(s[d..]) && (c < d ==> !Space(s[c]) && !Space(s[d - 1]))
    ensures a == c && b == d
  {
    assert forall i | 0 <= i < c :: s[..c][i] == s[i] && Space(s[i]);
    assert forall i | 0 <= i < a :: s[..a][i] == s[i] && Space(s[i]);
    assert forall i | b <= i < |s| :: s[b..][i - b] == s[i] && Space(s[i]);
    assert forall i | d <= i < |s| :: s[d..][i - d] == s[i] && Space(s[i]);
  }

  lemma SignedEdges(s: Bytes, v: int)
    requires Signed(s, v)
    ensures s != [] && !Space(s[0]) && !Space(s[|s| - 1])
  {
    var u := if s[0] as char == '-' || s[0] as char == '+' then s[1..] else s;
    var n := if s[0] as char == '-' then -v else v;
    if Run(u, n) {
      RunEdges(u, n);
    } else if Run(u[2..], n) {
      RunEdges(u[2..], n);
    } else {
      RunEdges(u[3..], n);
    }
  }

  ghost predicate Bare(s: Bytes, a: nat, b: nat) {
    a <= b <= |s| && White(s[..a]) && White(s[b..]) && (a < b ==> !Space(s[a]) && !Space(s[b - 1]))
  }

  lemma Trimmed(s: Bytes) returns (a: nat, b: nat)
    ensures Bare(s, a, b) && TrimRight(TrimLeft(s)) == s[a..b]
  {
    a := TrimmedLeft(s);
    var d := TrimmedRight(s[a..]);
    b := a + d;
    assert s[a..][..d] == s[a..b] && s[a..][d..] == s[b..];
  }

  lemma NumericIff(s: Bytes, a: nat, b: nat, v: int)
    requires Bare(s, a, b)
    ensures Numeric(s, v) <==> Signed(s[a..b], v)
  {
    hide Signed, White, Space;
    if Numeric(s, v) {
      var i, j :| 0 <= i <= j <= |s| && White(s[..i]) && White(s[j..]) && Signed(s[i..j], v);
      SignedEdges(s[i..j], v);
      assert s[i..j][0] == s[i] && s[i..j][j - i - 1] == s[j - 1];
      OneCore(s, i, j, a, b);
    }
  }

  /** int(s, 16) on every byte string. */
  lemma HexIntIff(s: Bytes, v: int)
    ensures HexInt(s) == Some(v) <==> Numeric(s, v)
  {
    hide Numeric, Signed, Unsigned, TrimLeft, TrimRight, Bare;
    var a, b := Trimmed(s);
    NumericIff(s, a, b, v);
    SignedIff(s[a..b], v);
  }

  lemma SignedIff(t: Bytes, v: int)
    ensures Signed(t, v) <==>
              (if t != [] && (t[0] == 43 || t[0] == 45) then
                 var u := Unsigned(t[1..]); u.Some? && v == if t[0] == 45 then -(u.value as int) else u.value
               else Unsigned(t) == Some(v))
  {
    if t != [] {
      if v >= 0 { UnsignedIff(t[1..], v); UnsignedIff(t, v); }
      if -v >= 0 { UnsignedIff(t[1..], -v); }
    }
  }

  // "%08x"

  function HexDigit(n: nat): byte
    requires n < 16
  {
    if n < 10 then 48 + n else 87 + n
  }

  function Hex(n: nat, width: nat): (s: Bytes)
    ensures |s| == width
    decreases width
  {
    if width == 0 then [] else Hex(n / 16, width - 1) + [HexDigit(n % 16)]
  }

  lemma {:induction false} HexRead(n: nat, width: nat, edge: bool)
    requires n < Power16(width) && (edge ==> width > 0)
    ensures ReadDigits(Hex(n, width), edge) == Some(n)
    ensures forall i | 0 <= i < width :: DigitValue(Hex(n, width)[i]).Some?
    decreases width
  {
    if width > 0 {
      assert Power16(width) == 16 * Power16(width - 1);
      HexRead(n / 16, width - 1, false);
      LastDigit(Hex(n / 16, width - 1), HexDigit(n % 16), edge);
    }
  }

  lemma LastDigit(init: Bytes, last: byte, edge: bool)
    requires DigitValue(last).Some? && ReadDigits(init, false).Some?
    ensures ReadDigits(init + [last], edge) == Some(16 * ReadDigits(init, false).value + DigitValue(last).value)
  {
    assert (init + [last])[..|init|] == init;
  }

  lemma PlainDigits(s: Bytes)
    requires |s| == 8 && forall i | 0 <= i < |s| :: DigitValue(s[i]).Some?
    ensures match DigitRun(s) case Some(n) => HexInt(s) == Some(n) case None => HexInt(s).None?
  {
    assert DigitValue(s[0]).Some? && DigitValue(s[1]).Some? && DigitValue(s[7]).Some?;
    assert TrimLeft(s) == s && TrimRight(s) == s;
  }

  /** Reading back what the writer prints. */
  lemma HexIntRead(n: nat)
    requires n < 0x1_0000_0000
    ensures HexInt(Hex(n, 8)) == Some(n)
  {
    assert Power16(8) == 0x1_0000_0000;
    HexRead(n, 8, true);
    PlainDigits(Hex(n, 8));
  }

  lemma Regroup(a: Bytes, b: Bytes, c: Bytes)
    ensures a + b + c == a + (b + c)
  {
  }
}
