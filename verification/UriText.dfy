/** encodeURIComponent on UTF-16 text: UTF-8 bytes, percent-encoded except for the
    unreserved characters (section 2.1 of RFC 3986). */
module UriText {
  import opened Wrappers
  import opened Sequences
  import opened CodeUnits
  import CodeText

  const PERCENT: CodeUnit := 0x25

  /** A-Z a-z 0-9 and - _ . ! ~ * ' ( ) */
  predicate Unreserved(c: int) {
    0x41 <= c <= 0x5A || 0x61 <= c <= 0x7A || 0x30 <= c <= 0x39
    || c == 0x2D || c == 0x5F || c == 0x2E || c == 0x21 || c == 0x7E || c == 0x2A || c == 0x27 || c == 0x28 || c == 0x29
  }

  const CAPITALS := "ABCDEFGHIJKLMNOPQRSTUVWXYZ"
  const SMALL := "abcdefghijklmnopqrstuvwxyz"
  const DIGITS := "0123456789"
  const MARKS := "-_.!~*'()"

  lemma InCapitals(c: char)
    ensures c in CAPITALS <==> 'A' <= c <= 'Z'
  {
    if 'A' <= c <= 'Z' {
      assert CAPITALS[c as int - 'A' as int] == c;
    }
  }

  lemma InSmall(c: char)
    ensures c in SMALL <==> 'a' <= c <= 'z'
  {
    if 'a' <= c <= 'z' {
      assert SMALL[c as int - 'a' as int] == c;
    }
  }

  lemma InDigits(c: char)
    ensures c in DIGITS <==> '0' <= c <= '9'
  {
    if '0' <= c <= '9' {
      assert DIGITS[c as int - '0' as int] == c;
    }
  }

  lemma InMarks(c: char)
    ensures c in MARKS <==>
              c == '-' || c == '_' || c == '.' || c == '!' || c == '~' || c == '*' || c == '\'' || c == '(' || c == ')'
  {
    assert MARKS == ['-', '_', '.', '!', '~', '*', '\'', '(', ')'];
  }

  /** The characters that are not escaped. */
  lemma UnreservedIs(c: char)
    ensures Unreserved(c as int) <==> c in CAPITALS || c in SMALL || c in DIGITS || c in MARKS
  {
    InCapitals(c);
    InSmall(c);
    InDigits(c);
    InMarks(c);
    hide CAPITALS, SMALL, DIGITS, MARKS;
  }

  predicate ScalarValue(c: int) { 0 <= c < 0xD800 || 0xE000 <= c < 0x11_0000 }

  function UpperHex(d: int): CodeUnit
    requires 0 <= d < 16
  {
    if d < 10 then 0x30 + d else 0x37 + d
  }

  function Escape(b: int): (t: Text)
    requires 0 <= b < 256
    ensures |t| == 3
  {
    [PERCENT, UpperHex(b / 16), UpperHex(b % 16)]
  }

  /** One code point: itself, or its UTF-8 bytes escaped. */
  function PointText(c: int): (t: Text)
    requires ScalarValue(c)
    ensures t != []
  {
    if Unreserved(c) then [c]
    else if c < 0x80 then Escape(c)
    else if c < 0x800 then Escape(0xC0 + c / 64) + Escape(0x80 + c % 64)
    else if c < 0x1_0000 then Escape(0xE0 + c / 64 / 64) + (Escape(0x80 + c / 64 % 64) + Escape(0x80 + c % 64))
    else Escape(0xF0 + c / 64 / 64 / 64)
         + (Escape(0x80 + c / 64 / 64 % 64) + (Escape(0x80 + c / 64 % 64) + Escape(0x80 + c % 64)))
  }

  /** The code point a text starts with, if that is not a lone surrogate. */
  function FirstPoint(s: Text): (point: Option<int>)
    requires s != []
    ensures point.Some? ==> ScalarValue(point.value)
  {
    if StartsPair(s) then Some(PairPoint(s[0], s[1]))
    else if ScalarValue(s[0]) then Some(s[0])
    else None
  }

  function PairPoint(high: int, low: int): int { 0x1_0000 + (high - 0xD800) * 0x400 + (low - 0xDC00) }

  function Width(s: Text): nat
    requires s != []
    ensures Width(s) <= |s|
  {
    if StartsPair(s) then 2 else 1
  }

  /** None where encodeURIComponent throws a URIError. */
  function Encoded(s: Text): Option<Text>
    decreases |s|
  {
    if s == [] then Some([])
    else match (FirstPoint(s), Encoded(s[Width(s)..]))
         case (Some(c), Some(rest)) => Some(PointText(c) + rest)
         case _ => None
  }

  /** Space, slash, colon, and two characters beside the unreserved ones. */
  lemma ByteExamples()
    ensures PointText(0x20) == [PERCENT, 0x32, 0x30] && PointText(0x2F) == [PERCENT, 0x32, 0x46]
    ensures PointText(0x3A) == [PERCENT, 0x33, 0x41] && PointText(0x40) == [PERCENT, 0x34, 0x30]
    ensures PointText(0x7E) == [0x7E]
  {
  }

  /** e acute and the euro sign. */
  lemma PointExamples()
    ensures PointText(0xE9) == [PERCENT, 0x43, 0x33, PERCENT, 0x41, 0x39]
    ensures PointText(0x20AC) == [PERCENT, 0x45, 0x32, PERCENT, 0x38, 0x32, PERCENT, 0x41, 0x43]
  {
    assert Escape(0xC3) == [PERCENT, 0x43, 0x33] && Escape(0xA9) == [PERCENT, 0x41, 0x39];
    assert Escape(0xE2) == [PERCENT, 0x45, 0x32] && Escape(0x82) == [PERCENT, 0x38, 0x32] && Escape(0xAC) == [PERCENT, 0x41, 0x43];
  }

  /** U+1F600, a surrogate pair. */
  lemma PairExample()
    ensures PairPoint(0xD83D, 0xDE00) == 0x1F600
    ensures PointText(0x1F600) == [PERCENT, 0x46, 0x30, PERCENT, 0x39, 0x46, PERCENT, 0x39, 0x38, PERCENT, 0x38, 0x30]
  {
    FourEscapes();
    hide Escape;
    assert 0x1F600 / 64 / 64 / 64 == 0 && 0x1F600 / 64 / 64 % 64 == 0x1F && 0x1F600 / 64 % 64 == 0x18 && 0x1F600 % 64 == 0;
  }

  lemma FourEscapes()
    ensures Escape(0xF0) + (Escape(0x9F) + (Escape(0x98) + Escape(0x80)))
         == [PERCENT, 0x46, 0x30, PERCENT, 0x39, 0x46, PERCENT, 0x39, 0x38, PERCENT, 0x38, 0x30]
  {
  }

  lemma OnePoint(c: CodeUnit)
    requires c < 0xD800
    ensures Encoded([c]) == Some(PointText(c)) && Encoded([]) == Some([])
  {
    hide PointText;
    var one: Text := [c];
    assert one[1..] == [] && PointText(c) + [] == PointText(c);
  }

  lemma {:induction false} UnreservedStays(t: Text)
    requires forall i :: 0 <= i < |t| ==> Unreserved(t[i])
    ensures Encoded(t) == Some(t)
    decreases |t|
  {
    if t != [] {
      UnreservedStays(t[1..]);
      assert PointText(t[0]) == [t[0]];
      hide PointText, Unreserved;
      assert t == [t[0]] + t[1..];
    }
  }

  /** The encoding throws exactly on text with a lone surrogate. */
  lemma {:induction false} EncodableExactlyWhen(s: Text)
    ensures Encoded(s).Some? <==> forall i :: 0 <= i < |s| ==> !CodeText.Lone(s, i)
  {
    hide CodeText.Lone;
    CodeText.WellFormedExactlyWhen(s);
    EncodableIsWellFormed(s);
  }

  lemma {:induction false} EncodableIsWellFormed(s: Text)
    ensures Encoded(s).Some? <==> CodeText.IsWellFormed(s)
    decreases |s|
  {
    if s != [] {
      EncodableIsWellFormed(s[Width(s)..]);
    }
  }

  lemma EncodableEndsNoPair(s: Text)
    requires Encoded(s).Some?
    ensures !EndsHigh(s)
  {
    EncodableExactlyWhen(s);
    if EndsHigh(s) {
      assert CodeText.Lone(s, |s| - 1);
    }
  }

  // ----- How many bytes -----

  /** How many bytes an encoded text stands for: one for each escape and each plain character. */
  function ByteCount(t: Text): nat {
    if t == [] then 0 else if t[0] == PERCENT && |t| >= 3 then 1 + ByteCount(t[3..]) else 1 + ByteCount(t[1..])
  }

  lemma ByteInFront(b: int, rest: Text)
    requires 0 <= b < 256
    ensures ByteCount(Escape(b) + rest) == 1 + ByteCount(rest)
  {
    assert (Escape(b) + rest)[3..] == rest;
  }

  lemma PointInFront(c: int, rest: Text)
    requires ScalarValue(c)
    ensures ByteCount(PointText(c) + rest)
         == (if c < 0x80 then 1 else if c < 0x800 then 2 else if c < 0x1_0000 then 3 else 4) + ByteCount(rest)
  {
    hide Escape;
    if Unreserved(c) {
      assert ([c] + rest)[1..] == rest;
    } else if c < 0x80 {
      ByteInFront(c, rest);
    } else if c < 0x800 {
      TwoInFront(0xC0 + c / 64, 0x80 + c % 64, rest);
    } else if c < 0x1_0000 {
      TwoInFront(0x80 + c / 64 % 64, 0x80 + c % 64, rest);
      MoreInFront(0xE0 + c / 64 / 64, Escape(0x80 + c / 64 % 64) + Escape(0x80 + c % 64), rest);
    } else {
      var two := Escape(0x80 + c / 64 % 64) + Escape(0x80 + c % 64);
      TwoInFront(0x80 + c / 64 % 64, 0x80 + c % 64, rest);
      MoreInFront(0x80 + c / 64 / 64 % 64, two, rest);
      MoreInFront(0xF0 + c / 64 / 64 / 64, Escape(0x80 + c / 64 / 64 % 64) + two, rest);
    }
  }

  lemma MoreInFront(a: int, more: Text, rest: Text)
    requires 0 <= a < 256
    ensures ByteCount(Escape(a) + more + rest) == 1 + ByteCount(more + rest)
  {
    ByteInFront(a, more + rest);
    Regroup(Escape(a), more, rest);
  }

  lemma TwoInFront(a: int, b: int, rest: Text)
    requires 0 <= a < 256 && 0 <= b < 256
    ensures ByteCount(Escape(a) + Escape(b) + rest) == 2 + ByteCount(rest)
  {
    MoreInFront(a, Escape(b), rest);
    ByteInFront(b, rest);
  }

  lemma {:induction false} EncodedBytes(s: Text)
    requires Encoded(s).Some?
    ensures ByteCount(Encoded(s).value) == Utf8Length(s)
    decreases |s|
  {
    hide PointText;
    if s != [] {
      EncodedBytes(s[Width(s)..]);
      PointInFront(FirstPoint(s).value, Encoded(s[Width(s)..]).value);
    }
  }

  lemma {:induction false} LengthOfWellFormed(s: Text)
    ensures Utf8Length(CodeText.ToWellFormed(s)) == Utf8Length(s)
    decreases |s|
  {
    if s != [] {
      var rest := CodeText.ToWellFormed(s[Width(s)..]);
      LengthOfWellFormed(s[Width(s)..]);
      assert CodeText.ToWellFormed(s)[Width(s)..] == rest;
    }
  }

  /** The UTF-8 length of any text is the number of bytes that are encoded for it, each lone surrogate
      counting as the replacement character. */
  lemma Utf8LengthIs(s: Text)
    ensures Encoded(CodeText.ToWellFormed(s)).Some?
    ensures Utf8Length(s) == ByteCount(Encoded(CodeText.ToWellFormed(s)).value)
  {
    CodeText.WellFormedIsWellFormed(s);
    EncodableIsWellFormed(CodeText.ToWellFormed(s));
    EncodedBytes(CodeText.ToWellFormed(s));
    LengthOfWellFormed(s);
  }

  // ----- Reading an encoded code point back -----

  function HexOf(u: CodeUnit): int { if u < 0x41 then u - 0x30 else u - 0x37 }

  function ByteAt(t: Text, i: nat): int
    requires i + 2 < |t|
  {
    16 * HexOf(t[i + 1]) + HexOf(t[i + 2])
  }

  /** How many bytes the UTF-8 sequence with this first byte has. */
  function SequenceLength(b: int): nat { if b < 0x80 then 1 else if b < 0xE0 then 2 else if b < 0xF0 then 3 else 4 }

  function ReadPoint(t: Text): Option<(int, Text)> {
    if t == [] then None
    else if t[0] != PERCENT then Some((t[0], t[1..]))
    else if |t| < 3 then None
    else
      var b := ByteAt(t, 0);
      var n := SequenceLength(b);
      if |t| < 3 * n then None
      else if n == 1 then Some((b, t[3..]))
      else if n == 2 then Some((64 * (b - 0xC0) + (ByteAt(t, 3) - 0x80), t[6..]))
      else if n == 3 then Some((64 * (64 * (b - 0xE0) + (ByteAt(t, 3) - 0x80)) + (ByteAt(t, 6) - 0x80), t[9..]))
      else
        Some((64 * (64 * (64 * (b - 0xF0) + (ByteAt(t, 3) - 0x80)) + (ByteAt(t, 6) - 0x80)) + (ByteAt(t, 9) - 0x80), t[12..]))
  }

  lemma ReadByte(b: int, before: Text, after: Text)
    requires 0 <= b < 256
    ensures ByteAt(before + (Escape(b) + after), |before|) == b
  {
    var t := before + (Escape(b) + after);
    assert t[|before| + 1] == Escape(b)[1] && t[|before| + 2] == Escape(b)[2];
    HexRoundTrip(b / 16);
    HexRoundTrip(b % 16);
  }

  lemma HexRoundTrip(d: int)
    requires 0 <= d < 16
    ensures HexOf(UpperHex(d)) == d
  {}

  lemma PointRoundTrip(c: int, rest: Text)
    requires ScalarValue(c)
    ensures ReadPoint(PointText(c) + rest) == Some((c, rest))
  {
    if Unreserved(c) {
      assert ([c] + rest)[1..] == rest;
    } else if c < 0x80 {
      assert [] + (Escape(c) + rest) == Escape(c) + rest;
      ReadByte(c, [], rest);
    } else if c < 0x800 {
      TwoByteRoundTrip(c, rest);
    } else if c < 0x1_0000 {
      ThreeByteRoundTrip(c, rest);
    } else {
      FourByteRoundTrip(c, rest);
    }
  }

  lemma TwoByteRoundTrip(c: int, rest: Text)
    requires 0x80 <= c < 0x800
    ensures ReadPoint(PointText(c) + rest) == Some((c, rest))
  {
    hide Escape, ByteAt;
    var a, b := 0xC0 + c / 64, 0x80 + c % 64;
    TwoBytes(a, b, rest);
    assert PointText(c) == Escape(a) + Escape(b);
    assert (PointText(c) + rest)[6..] == rest;
  }

  lemma ThreeByteRoundTrip(c: int, rest: Text)
    requires 0x800 <= c < 0x1_0000 && ScalarValue(c)
    ensures ReadPoint(PointText(c) + rest) == Some((c, rest))
  {
    hide Escape, ByteAt;
    var a, b, d := 0xE0 + c / 64 / 64, 0x80 + c / 64 % 64, 0x80 + c % 64;
    ThreeBytes(a, b, d, rest);
    assert PointText(c) == Escape(a) + (Escape(b) + Escape(d));
    assert (PointText(c) + rest)[9..] == rest;
  }

  lemma FourByteRoundTrip(c: int, rest: Text)
    requires 0x1_0000 <= c < 0x11_0000
    ensures ReadPoint(PointText(c) + rest) == Some((c, rest))
  {
    hide Escape, ByteAt;
    var a, b, d, e := 0xF0 + c / 64 / 64 / 64, 0x80 + c / 64 / 64 % 64, 0x80 + c / 64 % 64, 0x80 + c % 64;
    FourBytes(a, b, d, e, rest);
    assert PointText(c) == Escape(a) + (Escape(b) + (Escape(d) + Escape(e)));
    assert (PointText(c) + rest)[12..] == rest;
  }

  lemma TwoBytes(a: int, b: int, rest: Text)
    requires 0 <= a < 256 && 0 <= b < 256
    ensures var t := Escape(a) + Escape(b) + rest; ByteAt(t, 0) == a && ByteAt(t, 3) == b && t[0] == PERCENT
  {
    var t := Escape(a) + Escape(b) + rest;
    ReadByte(a, [], Escape(b) + rest);
    ReadByte(b, Escape(a), rest);
    Regroup(Escape(a), Escape(b), rest);
    assert [] + t == t;
  }

  lemma ThreeBytes(a: int, b: int, c: int, rest: Text)
    requires 0 <= a < 256 && 0 <= b < 256 && 0 <= c < 256
    ensures var t := Escape(a) + (Escape(b) + Escape(c)) + rest;
            ByteAt(t, 0) == a && ByteAt(t, 3) == b && ByteAt(t, 6) == c && t[0] == PERCENT
  {
    var t := Escape(a) + (Escape(b) + Escape(c)) + rest;
    TwoBytes(a, b, Escape(c) + rest);
    ReadByte(c, Escape(a) + Escape(b), rest);
    assert t == Escape(a) + Escape(b) + (Escape(c) + rest);
  }

  lemma FourBytes(a: int, b: int, c: int, d: int, rest: Text)
    requires 0 <= a < 256 && 0 <= b < 256 && 0 <= c < 256 && 0 <= d < 256
    ensures var t := Escape(a) + (Escape(b) + (Escape(c) + Escape(d))) + rest;
            ByteAt(t, 0) == a && ByteAt(t, 3) == b && ByteAt(t, 6) == c && ByteAt(t, 9) == d && t[0] == PERCENT
  {
    var t := Escape(a) + (Escape(b) + (Escape(c) + Escape(d))) + rest;
    ThreeBytes(a, b, c, Escape(d) + rest);
    ReadByte(d, Escape(a) + (Escape(b) + Escape(c)), rest);
    assert t == Escape(a) + (Escape(b) + Escape(c)) + (Escape(d) + rest);
  }

  // ----- Encoding is injective, and prefixes of encodings come from prefixes -----

  /** A text is determined by its first code point and the rest. */
  lemma SameFirstPoint(s: Text, u: Text)
    requires s != [] && u != [] && FirstPoint(s).Some? && FirstPoint(s) == FirstPoint(u)
    ensures Width(s) == Width(u) && s[..Width(s)] == u[..Width(u)]
  {
    if StartsPair(s) && StartsPair(u) {
      assert s[0] == u[0] && s[1] == u[1];
    }
  }

  lemma {:induction false} EncodedPrefix(p: Text, s: Text)
    requires Encoded(p).Some? && Encoded(s).Some? && Encoded(p).value <= Encoded(s).value
    ensures p <= s && Encoded(s[|p|..]) == Some(Encoded(s).value[|Encoded(p).value|..])
    decreases |p|
  {
    hide PointText, FirstPoint;
    if p == [] {
      assert s[0..] == s;
    } else {
      var e, f := Encoded(p).value, Encoded(s).value;
      var c, d := FirstPoint(p).value, FirstPoint(s).value;
      var p', s', r := Encoded(p[Width(p)..]).value, Encoded(s[Width(s)..]).value, f[|e|..];
      assert f == e + r;
      Regroup(PointText(c), p', r);
      PointRoundTrip(c, p' + r);
      PointRoundTrip(d, s');
      assert c == d && p' + r == s';
      SameFirstPoint(p, s);
      assert s'[|p'|..] == r;
      EncodedPrefix(p[Width(p)..], s[Width(s)..]);
      assert s[|p|..] == s[Width(s)..][|p[Width(p)..]|..];
      SameStart(p, s, Width(p));
    }
  }

  lemma SameStart(p: Text, s: Text, w: nat)
    requires w <= |p| && w <= |s| && p[..w] == s[..w] && p[w..] <= s[w..]
    ensures p <= s
  {
    assert p == p[..w] + p[w..] && s == s[..w] + s[w..];
  }

  lemma EncodedInjective(a: Text, b: Text)
    requires Encoded(a).Some? && Encoded(a) == Encoded(b)
    ensures a == b
  {
    EncodedPrefix(a, b);
    EncodedPrefix(b, a);
  }

  /** Encoding goes piece by piece where no surrogate pair is cut. */
  lemma {:induction false} EncodedConcatenation(p: Text, s: Text)
    requires !EndsHigh(p)
    ensures Encoded(p + s)
         == if Encoded(p).Some? && Encoded(s).Some? then Some(Encoded(p).value + Encoded(s).value) else None
    decreases |p|
  {
    hide PointText;
    if p == [] {
      assert [] + s == s;
      assert Encoded(s).Some? ==> [] + Encoded(s).value == Encoded(s).value;
    } else {
      assert Width(p + s) == Width(p) && FirstPoint(p + s) == FirstPoint(p);
      assert (p + s)[Width(p)..] == p[Width(p)..] + s;
      EncodedConcatenation(p[Width(p)..], s);
      if Encoded(p).Some? && Encoded(s).Some? {
        Regroup(PointText(FirstPoint(p).value), Encoded(p[Width(p)..]).value, Encoded(s).value);
      }
    }
  }

  lemma {:induction false} EncodedDigits(ds: Text)
    requires AllDigits(ds)
    ensures Encoded(ds) == Some(ds)
    decreases |ds|
  {
    if ds != [] {
      EncodedDigits(ds[1..]);
      assert PointText(ds[0]) == [ds[0]];
      assert ds == [ds[0]] + ds[1..];
    }
  }

  /** Nothing but unreserved characters and percent signs comes out. */
  predicate Plain(t: Text) { forall i :: 0 <= i < |t| ==> Unreserved(t[i]) || t[i] == PERCENT }

  lemma {:induction false} EncodedIsPlain(s: Text)
    requires Encoded(s).Some?
    ensures Plain(Encoded(s).value)
    decreases |s|
  {
    hide PointText;
    if s != [] {
      EncodedIsPlain(s[Width(s)..]);
      PointIsPlain(FirstPoint(s).value);
    }
  }

  lemma PointIsPlain(c: int)
    requires ScalarValue(c)
    ensures Plain(PointText(c))
  {
    hide Unreserved;
    assert Unreserved(c) || c >= 0x80 || Plain(Escape(c)) by {
      if 0 <= c < 0x80 {
        EscapeIsPlain(c);
      }
    }
    if 0x80 <= c < 0x800 {
      EscapeIsPlain(0xC0 + c / 64);
      EscapeIsPlain(0x80 + c % 64);
    } else if 0x800 <= c < 0x1_0000 {
      EscapeIsPlain(0xE0 + c / 64 / 64);
      EscapeIsPlain(0x80 + c / 64 % 64);
      EscapeIsPlain(0x80 + c % 64);
    } else if 0x1_0000 <= c {
      EscapeIsPlain(0xF0 + c / 64 / 64 / 64);
      EscapeIsPlain(0x80 + c / 64 / 64 % 64);
      EscapeIsPlain(0x80 + c / 64 % 64);
      EscapeIsPlain(0x80 + c % 64);
    }
  }

  lemma EscapeIsPlain(b: int)
    requires 0 <= b < 256
    ensures Plain(Escape(b))
  {}
}
