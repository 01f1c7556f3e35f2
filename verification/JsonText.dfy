/** JSON trees, the text JSON.stringify would give them, and an independent reader of
    that text (sections 2 to 7 of RFC 8259; numbers are the integers of section 6). */
module JsonText {
  import opened Wrappers
  import opened Sequences
  import opened CodeUnits

  datatype Kind = ArrayKind | ObjectKind

  /** Arrays and objects share one constructor; the entries of an array have empty names. */
  datatype Json =
    | Null
    | Bool(b: bool)
    | Num(n: int)
    | Str(s: Text)
    | Compound(kind: Kind, entries: seq<Entry>)

  datatype Entry = Entry(name: Text, value: Json)

  const QUOTE: CodeUnit := 0x22
  const BACKSLASH: CodeUnit := 0x5C
  const COMMA: CodeUnit := 0x2C
  const MINUS: CodeUnit := 0x2D
  const LOWER_U: CodeUnit := 0x75

  const NULL_TEXT: Text := [0x6E, 0x75, 0x6C, 0x6C]
  const TRUE_TEXT: Text := [0x74, 0x72, 0x75, 0x65]
  const FALSE_TEXT: Text := [0x66, 0x61, 0x6C, 0x73, 0x65]

  function Opening(kind: Kind): CodeUnit { if kind == ArrayKind then 0x5B else 0x7B }

  function Closing(kind: Kind): CodeUnit { if kind == ArrayKind then 0x5D else 0x7D }

  // ----- Writing -----

  function HexDigit(d: int): CodeUnit
    requires 0 <= d < 16
  {
    if d < 10 then 0x30 + d else 0x57 + d
  }

  function UnicodeEscape(u: CodeUnit): Text {
    [BACKSLASH, LOWER_U,
     HexDigit(u / 16 / 16 / 16), HexDigit(u / 16 / 16 % 16), HexDigit(u / 16 % 16), HexDigit(u % 16)]
  }

  /** The letter after the backslash of a two-character escape. */
  function ShortEscape(u: CodeUnit): Option<CodeUnit> {
    if u == QUOTE || u == BACKSLASH then Some(u)
    else if u == 0x08 then Some(0x62)
    else if u == 0x09 then Some(0x74)
    else if u == 0x0A then Some(0x6E)
    else if u == 0x0C then Some(0x66)
    else if u == 0x0D then Some(0x72)
    else None
  }

  function EscapedUnit(u: CodeUnit): Text {
    if ShortEscape(u).Some? then [BACKSLASH, ShortEscape(u).value]
    else if u < 0x20 || 0xD800 <= u < 0xE000 then UnicodeEscape(u)
    else [u]
  }

  /** Well-formed JSON.stringify: surrogate pairs stay, lone surrogates are escaped. */
  function EscapedText(s: Text): Text {
    if s == [] then []
    else if StartsPair(s) then s[..2] + EscapedText(s[2..])
    else EscapedUnit(s[0]) + EscapedText(s[1..])
  }

  lemma {:induction false} EscapingNeverShortens(s: Text)
    ensures |EscapedText(s)| >= |s|
    decreases |s|
  {
    if StartsPair(s) {
      EscapingNeverShortens(s[2..]);
    } else if s != [] {
      EscapingNeverShortens(s[1..]);
    }
  }

  /** Only what has to be escaped is, and with two characters where there are such escapes. */
  lemma EscapeIsShortest(u: CodeUnit)
    ensures EscapedUnit(u) == [u] <==> u >= 0x20 && u != QUOTE && u != BACKSLASH && !IsHigh(u) && !IsLow(u)
    ensures |EscapedUnit(u)| == 2 <==> u in [QUOTE, BACKSLASH, 0x08, 0x09, 0x0A, 0x0C, 0x0D]
    ensures |EscapedUnit(u)| in [1, 2, 6]
    ensures EscapedUnit(0x1F) == [BACKSLASH, LOWER_U, 0x30, 0x30, 0x31, 0x66]
    ensures EscapedUnit(0xDFAB) == [BACKSLASH, LOWER_U, 0x64, 0x66, 0x61, 0x62]
  {
  }

  /** Escaping goes character by character; a surrogate pair is one. */
  lemma {:induction false} EscapedBoth(a: Text, b: Text)
    requires !(EndsHigh(a) && b != [] && IsLow(b[0]))
    ensures EscapedText(a + b) == EscapedText(a) + EscapedText(b)
    ensures forall u :: EscapedText([u]) == EscapedUnit(u)
    ensures forall h, l :: IsHigh(h) && IsLow(l) ==> EscapedText([h, l]) == [h, l]
    decreases |a|
  {
    hide EscapedUnit;
    assert EscapedText([]) == [];
    assert forall u: CodeUnit :: [u][1..] == [] && [u] == [u];
    assert forall h: CodeUnit, l: CodeUnit :: [h, l][2..] == [] && [h, l][..2] == [h, l];
    if a == [] {
      assert a + b == b;
    } else {
      var n := if StartsPair(a) then 2 else 1;
      assert (a + b)[n..] == a[n..] + b && (n == 2 ==> (a + b)[..2] == a[..2]);
      EscapedBoth(a[n..], b);
      Regroup(if n == 2 then a[..2] else EscapedUnit(a[0]), EscapedText(a[n..]), EscapedText(b));
    }
  }

  function Quoted(s: Text): Text { [QUOTE] + EscapedText(s) + [QUOTE] }

  function NumberText(n: int): Text { if n < 0 then [MINUS] + Decimal(-n) else Decimal(n) }

  function NamePart(kind: Kind, name: Text): Text {
    if kind == ArrayKind then [] else Quoted(name) + [COLON]
  }

  function Print(t: Json): Text
    decreases t
  {
    match t
    case Null => NULL_TEXT
    case Bool(b) => if b then TRUE_TEXT else FALSE_TEXT
    case Num(n) => NumberText(n)
    case Str(s) => Quoted(s)
    case Compound(kind, entries) => [Opening(kind)] + PrintEntries(kind, entries) + [Closing(kind)]
  }

  function EntryText(kind: Kind, entry: Entry): Text
    decreases entry
  {
    NamePart(kind, entry.name) + Print(entry.value)
  }

  function PrintEntries(kind: Kind, entries: seq<Entry>): Text
    decreases entries
  {
    if entries == [] then [] else EntryText(kind, entries[0]) + FurtherEntries(kind, entries[1..])
  }

  function FurtherEntries(kind: Kind, entries: seq<Entry>): Text
    decreases entries
  {
    if entries == [] then [] else [COMMA] + EntryText(kind, entries[0]) + FurtherEntries(kind, entries[1..])
  }

  lemma {:induction false} FurtherEntriesAppend(kind: Kind, front: seq<Entry>, last: Entry)
    ensures FurtherEntries(kind, front + [last]) == FurtherEntries(kind, front) + ([COMMA] + EntryText(kind, last))
    decreases |front|
  {
    var all := front + [last];
    if front == [] {
      assert all == [last];
      assert FurtherEntries(kind, all[1..]) == [];
    } else {
      FurtherEntriesAppend(kind, front[1..], last);
      assert all[1..] == front[1..] + [last];
      Regroup([COMMA] + EntryText(kind, front[0]), FurtherEntries(kind, front[1..]), [COMMA] + EntryText(kind, last));
    }
  }

  /** What a writer that appends one entry at a time produces. */
  lemma PrintEntriesAppend(kind: Kind, front: seq<Entry>, last: Entry)
    ensures PrintEntries(kind, front + [last])
         == PrintEntries(kind, front) + ((if front == [] then [] else [COMMA]) + EntryText(kind, last))
  {
    var all := front + [last];
    if front == [] {
      assert all == [last];
      assert FurtherEntries(kind, all[1..]) == [];
    } else {
      FurtherEntriesAppend(kind, front[1..], last);
      assert all[1..] == front[1..] + [last];
      Regroup(EntryText(kind, front[0]), FurtherEntries(kind, front[1..]), [COMMA] + EntryText(kind, last));
    }
  }

  /** null, true, false, [], {} and -10. */
  lemma PrintExamples()
    ensures Print(Null) == [0x6E, 0x75, 0x6C, 0x6C]
    ensures Print(Bool(true)) == [0x74, 0x72, 0x75, 0x65] && Print(Bool(false)) == [0x66, 0x61, 0x6C, 0x73, 0x65]
    ensures Print(Compound(ArrayKind, [])) == [0x5B, 0x5D] && Print(Compound(ObjectKind, [])) == [0x7B, 0x7D]
    ensures Print(Num(-10)) == [0x2D, 0x31, 0x30]
  {
    assert Decimal(10) == Decimal(1) + [0x30];
  }

  lemma OneEntry(kind: Kind, a: Entry)
    ensures PrintEntries(kind, [a]) == EntryText(kind, a)
  {
    var one := [a];
    assert one[1..] == [] && FurtherEntries(kind, []) == [];
  }

  lemma TwoEntries(kind: Kind, a: Entry, b: Entry)
    ensures PrintEntries(kind, [a, b]) == EntryText(kind, a) + ([COMMA] + EntryText(kind, b))
  {
    assert [a] + [b] == [a, b];
    OneEntry(kind, a);
    PrintEntriesAppend(kind, [a], b);
  }

  /** [a,b] */
  lemma PrintArrayOfTwo(a: Entry, b: Entry)
    ensures Print(Compound(ArrayKind, [a, b])) == [0x5B] + (Print(a.value) + ([0x2C] + Print(b.value))) + [0x5D]
  {
    TwoEntries(ArrayKind, a, b);
    assert EntryText(ArrayKind, a) == Print(a.value) && EntryText(ArrayKind, b) == Print(b.value);
    hide PrintEntries, EntryText;
  }

  /** {"name":a,"name":b} */
  lemma PrintObjectOfTwo(a: Entry, b: Entry)
    ensures Print(Compound(ObjectKind, [a, b]))
         == [0x7B] + (Quoted(a.name) + [0x3A] + Print(a.value) + ([0x2C] + (Quoted(b.name) + [0x3A] + Print(b.value)))) + [0x7D]
  {
    hide Quoted;
    TwoEntries(ObjectKind, a, b);
    hide PrintEntries;
  }

  // ----- Reading -----

  datatype Reading<+T> = Failed | Read(value: T, rest: Text)

  predicate IsSpace(u: CodeUnit) { u == 0x20 || u == 0x09 || u == 0x0A || u == 0x0D }

  function SkipSpace(s: Text): (rest: Text)
    ensures |rest| <= |s|
  {
    if s != [] && IsSpace(s[0]) then SkipSpace(s[1..]) else s
  }

  function HexValue(u: CodeUnit): Option<int> {
    if IsDigit(u) then Some(u - 0x30)
    else if 0x61 <= u <= 0x66 then Some(u - 0x57)
    else if 0x41 <= u <= 0x46 then Some(u - 0x37)
    else None
  }

  /** The four hexadecimal digits after "\u". */
  function ReadHex4(s: Text): Option<int>
    requires |s| >= 4
  {
    match (HexValue(s[0]), HexValue(s[1]), HexValue(s[2]), HexValue(s[3]))
    case (Some(a), Some(b), Some(c), Some(d)) => Some(4096 * a + 256 * b + 16 * c + d)
    case _ => None
  }

  function ReadShortEscape(u: CodeUnit): Option<CodeUnit> {
    if u == QUOTE || u == BACKSLASH || u == SLASH then Some(u)
    else if u == 0x62 then Some(0x08)
    else if u == 0x74 then Some(0x09)
    else if u == 0x6E then Some(0x0A)
    else if u == 0x66 then Some(0x0C)
    else if u == 0x72 then Some(0x0D)
    else None
  }

  /** One possibly escaped character of a string (section 7). */
  function ReadCharacter(s: Text): (r: Reading<CodeUnit>)
    requires s != []
    ensures r.Read? ==> |r.rest| < |s|
  {
    if s[0] < 0x20 || s[0] == QUOTE then Failed
    else if s[0] != BACKSLASH then Read(s[0], s[1..])
    else if |s| < 2 then Failed
    else if s[1] == LOWER_U then
      if |s| < 6 then Failed
      else match ReadHex4(s[2..6])
           case None => Failed
           case Some(u) => if 0 <= u < 0x1_0000 then Read(u, s[6..]) else Failed
    else match ReadShortEscape(s[1])
         case None => Failed
         case Some(u) => Read(u, s[2..])
  }

  /** The rest of a string after its opening quotation mark. */
  function ReadString(s: Text): (r: Reading<Text>)
    ensures r.Read? ==> |r.rest| < |s|
  {
    if s == [] then Failed
    else if s[0] == QUOTE then Read([], s[1..])
    else match ReadCharacter(s)
         case Failed => Failed
         case Read(u, rest) =>
           match ReadString(rest)
           case Failed => Failed
           case Read(us, end) => Read([u] + us, end)
  }

  function DigitRun(s: Text): (n: nat)
    ensures n <= |s| && AllDigits(s[..n])
  {
    if s != [] && IsDigit(s[0]) then 1 + DigitRun(s[1..]) else 0
  }

  /** A number: the digits must be canonical and no fraction or exponent may follow. */
  function ReadNumber(s: Text): (r: Reading<Json>)
    ensures r.Read? ==> |r.rest| < |s|
  {
    var negative := s != [] && s[0] == MINUS;
    var body := if negative then s[1..] else s;
    var digits := body[..DigitRun(body)];
    var rest := body[DigitRun(body)..];
    if !Canonical(digits) || (rest != [] && rest[0] in {0x2E, 0x45, 0x65}) then Failed
    else Read(Num((if negative then -1 else 1) * DecimalValue(digits)), rest)
  }

  function ReadLiteral(s: Text, literal: Text, t: Json): (r: Reading<Json>)
    requires literal != []
    ensures r.Read? ==> |r.rest| < |s|
  {
    if literal <= s then Read(t, s[|literal|..]) else Failed
  }

  function ReadValue(text: Text): (r: Reading<Json>)
    ensures r.Read? ==> |r.rest| < |text|
    decreases |text|, 0
  {
    var s := SkipSpace(text);
    if s == [] then Failed
    else if s[0] == QUOTE then
      match ReadString(s[1..])
      case Failed => Failed
      case Read(us, rest) => Read(Str(us), rest)
    else if s[0] == Opening(ArrayKind) then ReadCompound(ArrayKind, s[1..])
    else if s[0] == Opening(ObjectKind) then ReadCompound(ObjectKind, s[1..])
    else if s[0] == NULL_TEXT[0] then ReadLiteral(s, NULL_TEXT, Null)
    else if s[0] == TRUE_TEXT[0] then ReadLiteral(s, TRUE_TEXT, Bool(true))
    else if s[0] == FALSE_TEXT[0] then ReadLiteral(s, FALSE_TEXT, Bool(false))
    else ReadNumber(s)
  }

  /** An array or object after its opening bracket. */
  function ReadCompound(kind: Kind, text: Text): (r: Reading<Json>)
    ensures r.Read? ==> |r.rest| < |text|
    decreases |text|, 3
  {
    var s := SkipSpace(text);
    if s != [] && s[0] == Closing(kind) then Read(Compound(kind, []), s[1..])
    else match ReadEntries(kind, s)
         case Failed => Failed
         case Read(entries, rest) => Read(Compound(kind, entries), rest)
  }

  function ReadName(kind: Kind, text: Text): (r: Reading<Text>)
    ensures r.Read? ==> |r.rest| <= |text|
  {
    var s := SkipSpace(text);
    if kind == ArrayKind then Read([], s)
    else if s == [] || s[0] != QUOTE then Failed
    else match ReadString(s[1..])
         case Failed => Failed
         case Read(name, rest) =>
           var after := SkipSpace(rest);
           if after == [] || after[0] != COLON then Failed else Read(name, after[1..])
  }

  /** One or more entries and the closing bracket. */
  function ReadEntries(kind: Kind, text: Text): (r: Reading<seq<Entry>>)
    ensures r.Read? ==> |r.rest| < |text|
    decreases |text|, 2
  {
    match ReadName(kind, text)
    case Failed => Failed
    case Read(name, afterName) =>
      match ReadValue(afterName)
      case Failed => Failed
      case Read(t, afterValue) =>
        var s := SkipSpace(afterValue);
        if s == [] then Failed
        else if s[0] == Closing(kind) then Read([Entry(name, t)], s[1..])
        else if s[0] != COMMA then Failed
        else match ReadEntries(kind, s[1..])
             case Failed => Failed
             case Read(more, rest) => Read([Entry(name, t)] + more, rest)
  }

  /** A whole JSON text (section 2). */
  function Parse(text: Text): Option<Json> {
    match ReadValue(text)
    case Failed => None
    case Read(t, rest) => if SkipSpace(rest) == [] then Some(t) else None
  }

  // ----- Reading undoes writing -----

  /** The entries of an array carry no names, all the way down. */
  predicate Nameless(t: Json) {
    t.Compound? ==>
      forall i :: 0 <= i < |t.entries| ==>
        (t.kind == ArrayKind ==> t.entries[i].name == []) && Nameless(t.entries[i].value)
  }

  lemma HexDigitValue(d: int)
    requires 0 <= d < 16
    ensures HexValue(HexDigit(d)) == Some(d)
  {}

  lemma HexDigitsOf(u: CodeUnit)
    ensures ReadHex4(UnicodeEscape(u)[2..]) == Some(u)
  {
    HexDigitValue(u / 16 / 16 / 16);
    HexDigitValue(u / 16 / 16 % 16);
    HexDigitValue(u / 16 % 16);
    HexDigitValue(u % 16);
    var digits := UnicodeEscape(u)[2..];
    assert digits[0] == HexDigit(u / 16 / 16 / 16) && digits[1] == HexDigit(u / 16 / 16 % 16);
    assert digits[2] == HexDigit(u / 16 % 16) && digits[3] == HexDigit(u % 16);
  }

  lemma HexRoundTrip(escape: Text, u: CodeUnit, rest: Text)
    requires |escape| == 6 && escape[0] == BACKSLASH && escape[1] == LOWER_U && ReadHex4(escape[2..]) == Some(u)
    ensures ReadCharacter(escape + rest) == Read(u, rest)
  {
    assert (escape + rest)[2..6] == escape[2..];
    assert (escape + rest)[6..] == rest;
  }

  lemma CharacterRoundTrip(u: CodeUnit, rest: Text)
    ensures EscapedUnit(u)[0] != QUOTE
    ensures ReadCharacter(EscapedUnit(u) + rest) == Read(u, rest)
  {
    if ShortEscape(u).None? && (u < 0x20 || 0xD800 <= u < 0xE000) {
      HexDigitsOf(u);
      HexRoundTrip(UnicodeEscape(u), u, rest);
    } else {
      assert (EscapedUnit(u) + rest)[|EscapedUnit(u)|..] == rest;
    }
  }

  lemma PlainCharacter(u: CodeUnit, tail: Text, us: Text, rest: Text)
    requires u >= 0xD800 && ReadString(tail) == Read(us, rest)
    ensures ReadString([u] + tail) == Read([u] + us, rest)
  {
    assert ([u] + tail)[1..] == tail;
  }

  lemma PairRoundTrip(s: Text, tail: Text, rest: Text)
    requires StartsPair(s)
    requires ReadString(tail) == Read(s[2..], rest)
    ensures ReadString(s[..2] + tail) == Read(s, rest)
  {
    PlainCharacter(s[1], tail, s[2..], rest);
    PlainCharacter(s[0], [s[1]] + tail, [s[1]] + s[2..], rest);
    assert s[..2] + tail == [s[0]] + ([s[1]] + tail);
    assert s == [s[0]] + ([s[1]] + s[2..]);
  }

  lemma EscapedCharacter(u: CodeUnit, tail: Text, us: Text, rest: Text)
    requires ReadString(tail) == Read(us, rest)
    ensures ReadString(EscapedUnit(u) + tail) == Read([u] + us, rest)
  {
    CharacterRoundTrip(u, tail);
  }

  lemma {:induction false} StringRoundTrip(s: Text, rest: Text)
    ensures ReadString(EscapedText(s) + ([QUOTE] + rest)) == Read(s, rest)
    decreases |s|
  {
    var end := [QUOTE] + rest;
    if s == [] {
      assert EscapedText(s) + end == end;
    } else if StartsPair(s) {
      StringRoundTrip(s[2..], rest);
      PairRoundTrip(s, EscapedText(s[2..]) + end, rest);
      Regroup(s[..2], EscapedText(s[2..]), end);
    } else {
      StringRoundTrip(s[1..], rest);
      EscapedCharacter(s[0], EscapedText(s[1..]) + end, s[1..], rest);
      Regroup(EscapedUnit(s[0]), EscapedText(s[1..]), end);
      assert s == [s[0]] + s[1..];
    }
  }

  lemma QuotedRoundTrip(s: Text, rest: Text)
    ensures ReadString((Quoted(s) + rest)[1..]) == Read(s, rest)
  {
    StringRoundTrip(s, rest);
    var inside := EscapedText(s) + ([QUOTE] + rest);
    Regroup([QUOTE] + EscapedText(s), [QUOTE], rest);
    Regroup([QUOTE], EscapedText(s), [QUOTE] + rest);
    assert ([QUOTE] + inside)[1..] == inside;
  }

  lemma {:induction false} DigitRunOf(ds: Text, rest: Text)
    requires AllDigits(ds) && (rest == [] || !IsDigit(rest[0]))
    ensures DigitRun(ds + rest) == |ds|
  {
    if ds == [] {
      assert ds + rest == rest;
    } else {
      DigitRunOf(ds[1..], rest);
      assert (ds + rest)[1..] == ds[1..] + rest;
    }
  }

  /** What may follow a number without becoming part of it. */
  predicate Delimits(rest: Text) {
    rest == [] || (!IsDigit(rest[0]) && rest[0] !in {0x2E, 0x45, 0x65})
  }

  lemma DigitsRoundTrip(m: nat, rest: Text)
    requires Delimits(rest)
    ensures var s := Decimal(m) + rest;
            && DigitRun(s) == |Decimal(m)| && s[..|Decimal(m)|] == Decimal(m) && s[|Decimal(m)|..] == rest
            && s[0] != MINUS && Canonical(Decimal(m)) && DecimalValue(Decimal(m)) == m
  {
    DecimalRoundTrip(m);
    DigitRunOf(Decimal(m), rest);
  }

  lemma NumberRoundTrip(n: int, rest: Text)
    requires Delimits(rest)
    ensures ReadNumber(NumberText(n) + rest) == Read(Num(n), rest)
  {
    hide Decimal, DecimalValue, Canonical, DigitRun;
    var m: nat := if n < 0 then -n else n;
    DigitsRoundTrip(m, rest);
    if n < 0 {
      Regroup([MINUS], Decimal(m), rest);
      assert ([MINUS] + (Decimal(m) + rest))[1..] == Decimal(m) + rest;
    }
  }

  lemma PrintStart(t: Json)
    ensures Print(t) != []
    ensures !IsSpace(Print(t)[0]) && Print(t)[0] < 0x80
    ensures Print(t)[0] != Closing(ArrayKind) && Print(t)[0] != Closing(ObjectKind)
  {}

  lemma {:induction false} ValueRoundTrip(t: Json, rest: Text)
    requires Nameless(t) && Delimits(rest)
    ensures ReadValue(Print(t) + rest) == Read(t, rest)
    decreases t, 0
  {
    var all := Print(t) + rest;
    PrintStart(t);
    assert SkipSpace(all) == all;
    match t
    case Null => assert all[4..] == rest;
    case Bool(b) => assert all[|Print(t)|..] == rest;
    case Num(n) => NumberRoundTrip(n, rest);
    case Str(s) => QuotedRoundTrip(s, rest);
    case Compound(kind, entries) => CompoundRoundTrip(t, rest);
  }

  lemma {:induction false} CompoundRoundTrip(t: Json, rest: Text)
    requires t.Compound? && Nameless(t)
    ensures ReadCompound(t.kind, (Print(t) + rest)[1..]) == Read(t, rest)
    decreases t, -1
  {
    var inside := PrintEntries(t.kind, t.entries) + ([Closing(t.kind)] + rest);
    assert (Print(t) + rest)[1..] == inside;
    if t.entries == [] {
      assert inside == [Closing(t.kind)] + rest;
    } else {
      EntriesRoundTrip(t, 0, rest);
      assert t.entries[0..] == t.entries;
      EntriesStart(t.kind, t.entries);
    }
  }

  lemma EntriesStart(kind: Kind, entries: seq<Entry>)
    requires entries != []
    ensures var p := PrintEntries(kind, entries); p != [] && !IsSpace(p[0]) && p[0] != Closing(kind)
  {
    PrintStart(entries[0].value);
  }

  lemma NameRoundTrip(kind: Kind, name: Text, rest: Text)
    requires kind == ArrayKind ==> name == []
    requires rest != [] && !IsSpace(rest[0])
    ensures ReadName(kind, NamePart(kind, name) + rest) == Read(name, rest)
  {
    if kind == ArrayKind {
      assert NamePart(kind, name) + rest == rest;
    } else {
      QuotedRoundTrip(name, [COLON] + rest);
      Regroup(Quoted(name), [COLON], rest);
      assert ([COLON] + rest)[1..] == rest;
    }
  }

  lemma ReadEntriesStep(kind: Kind, text: Text, e: Entry, afterName: Text, tail: Text, more: seq<Entry>, rest: Text)
    requires ReadName(kind, text) == Read(e.name, afterName) && ReadValue(afterName) == Read(e.value, tail)
    requires tail != [] && (tail[0] == Closing(kind) || tail[0] == COMMA)
    requires tail[0] == Closing(kind) ==> more == [] && rest == tail[1..]
    requires tail[0] == COMMA ==> ReadEntries(kind, tail[1..]) == Read(more, rest)
    ensures ReadEntries(kind, text) == Read([e] + more, rest)
  {
    assert SkipSpace(tail) == tail;
    assert [e] + [] == [e];
  }

  /** Reading an entry leaves what follows it, up to a closing bracket or a comma. */
  lemma EntryRoundTrip(kind: Kind, e: Entry, tail: Text, more: seq<Entry>, rest: Text)
    requires kind == ArrayKind ==> e.name == []
    requires tail != [] && (tail[0] == Closing(kind) || tail[0] == COMMA)
    requires ReadValue(Print(e.value) + tail) == Read(e.value, tail)
    requires tail[0] == Closing(kind) ==> more == [] && rest == tail[1..]
    requires tail[0] == COMMA ==> ReadEntries(kind, tail[1..]) == Read(more, rest)
    ensures ReadEntries(kind, EntryText(kind, e) + tail) == Read([e] + more, rest)
  {
    PrintStart(e.value);
    NameRoundTrip(kind, e.name, Print(e.value) + tail);
    Regroup(NamePart(kind, e.name), Print(e.value), tail);
    ReadEntriesStep(kind, EntryText(kind, e) + tail, e, Print(e.value) + tail, tail, more, rest);
  }

  lemma {:induction false} EntriesRoundTrip(t: Json, i: nat, rest: Text)
    requires t.Compound? && Nameless(t) && i < |t.entries|
    ensures ReadEntries(t.kind, PrintEntries(t.kind, t.entries[i..]) + ([Closing(t.kind)] + rest))
         == Read(t.entries[i..], rest)
    decreases t, -1, |t.entries| - i
  {
    var kind, e, more := t.kind, t.entries[i], t.entries[i + 1..];
    var end := [Closing(kind)] + rest;
    var tail := FurtherEntries(kind, more) + end;
    assert t.entries[i..] == [e] + more;
    Regroup(EntryText(kind, e), FurtherEntries(kind, more), end);
    if more == [] {
      assert tail == end;
    } else {
      EntriesRoundTrip(t, i + 1, rest);
      FurtherThenEnd(kind, more, end);
    }
    ValueRoundTrip(e.value, tail);
    EntryRoundTrip(kind, e, tail, more, rest);
  }

  lemma FurtherThenEnd(kind: Kind, more: seq<Entry>, end: Text)
    requires more != []
    ensures FurtherEntries(kind, more) + end == [COMMA] + (PrintEntries(kind, more) + end)
  {
    Regroup([COMMA], EntryText(kind, more[0]), FurtherEntries(kind, more[1..]));
    Regroup([COMMA], PrintEntries(kind, more), end);
  }

  /** Section 2 of RFC 8259 read back: the text stands for exactly the printed tree. */
  lemma PrintThenParse(t: Json)
    requires Nameless(t)
    ensures Parse(Print(t)) == Some(t)
  {
    ValueRoundTrip(t, []);
    assert Print(t) + [] == Print(t);
  }
}
