/** Capturing a task's log lines from a stream of chunks (apps/code-runner/src/process/logs.ts). */
module TaskLogs {
  import opened Wrappers
  import opened Sequences
  import opened CodeUnits
  import opened CodeText

  type Byte = b: int | 0 <= b < 256

  datatype Level = Log | Info | Warn | Error | Debug

  datatype Line = Line(level: Level, message: Text)

  /** `decode` is what the StringDecoder has emitted after these bytes, `parse` JSON.parse and the
      line schema together. */
  datatype Codec = Codec(decode: seq<Byte> -> Text, parse: Text -> Option<Line>)

  /** The decoder starts empty and never takes back what it has emitted. */
  ghost predicate Streams(x: Codec) { x.decode([]) == [] && forall a, b :: x.decode(a) <= x.decode(a + b) }

  const WIRE_LIMIT := 512 * 1024
  const PENDING_LIMIT := 16 * 1024
  const LOG_LINES := 200
  const LOG_BYTES := 65_536
  const LINE_CHARACTERS := 2_048
  const NEWLINE: CodeUnit := 0x0A

  /** logs, their bytes, and whether anything was lost */
  datatype Kept = Kept(logs: seq<Line>, bytes: nat, truncated: bool)

  /** `received` is what the decoder has been given. */
  datatype State = State(received: seq<Byte>, wire: nat, pending: Text, kept: Kept, exceeded: bool)

  const NOTHING_KEPT := Kept([], 0, false)
  const INITIAL := State([], 0, [], NOTHING_KEPT, false)

  // ----- One line -----

  function Keep(k: Kept, line: Line): Kept {
    var retained := RetainCodeText(line.message, LINE_CHARACTERS);
    var size := Utf8Length(retained.message);
    if |k.logs| >= LOG_LINES || k.bytes + size > LOG_BYTES then k.(truncated := true)
    else Kept(k.logs + [Line(line.level, retained.message)], k.bytes + size, k.truncated || retained.truncated)
  }

  function TakeLine(x: Codec, k: Kept, text: Text): Kept {
    match x.parse(text)
    case None => k.(truncated := true)
    case Some(line) => Keep(k, line)
  }

  function TakeLines(x: Codec, k: Kept, lines: seq<Text>): Kept
    decreases |lines|
  {
    if lines == [] then k else TakeLines(x, TakeLine(x, k, lines[0]), lines[1..])
  }

  // ----- Lines of a text -----

  /** Where the first newline is; the length where there is none. */
  function LineEnd(text: Text): (at: nat)
    ensures at <= |text|
    ensures forall i :: 0 <= i < at ==> text[i] != NEWLINE
    ensures at < |text| ==> text[at] == NEWLINE
  {
    if text == [] || text[0] == NEWLINE then 0 else 1 + LineEnd(text[1..])
  }

  predicate HasLine(text: Text) { LineEnd(text) < |text| }

  /** The complete lines, and what follows the last newline. */
  function Lines(text: Text): seq<Text>
    decreases |text|
  {
    if !HasLine(text) then [] else [text[..LineEnd(text)]] + Lines(text[LineEnd(text) + 1..])
  }

  function Rest(text: Text): (r: Text)
    ensures |r| <= |text|
    decreases |text|
  {
    if !HasLine(text) then text else Rest(text[LineEnd(text) + 1..])
  }

  // ----- append -----

  function Overflowed(s: State): State { s.(kept := s.kept.(truncated := true), exceeded := true) }

  function Appended(x: Codec, s: State, chunk: seq<Byte>): State
    requires x.decode(s.received) <= x.decode(s.received + chunk)
  {
    var wired := s.(wire := s.wire + |chunk|);
    if wired.wire > WIRE_LIMIT then Overflowed(wired)
    else
      var text := s.pending + x.decode(s.received + chunk)[|x.decode(s.received)|..];
      var taken := wired.(received := s.received + chunk, pending := Rest(text), kept := TakeLines(x, s.kept, Lines(text)));
      if |taken.pending| > PENDING_LIMIT then Overflowed(taken.(pending := [])) else taken
  }

  ghost function AppendedAll(x: Codec, s: State, chunks: seq<seq<Byte>>): State
    requires Streams(x)
    decreases |chunks|
  {
    if chunks == [] then s else AppendedAll(x, Appended(x, s, chunks[0]), chunks[1..])
  }

  // ----- Cutting a text in two -----

  lemma LineEndInFront(a: Text, b: Text)
    ensures HasLine(a) ==> LineEnd(a + b) == LineEnd(a)
    ensures !HasLine(a) ==> LineEnd(a + b) >= |a|
  {
    var at := LineEnd(a + b);
    assert forall i :: 0 <= i < |a| ==> (a + b)[i] == a[i];
  }

  lemma CutLine(a: Text, b: Text)
    requires HasLine(a)
    ensures Lines(a + b) == [a[..LineEnd(a)]] + Lines(a[LineEnd(a) + 1..] + b)
    ensures Rest(a + b) == Rest(a[LineEnd(a) + 1..] + b)
  {
    var at := LineEnd(a);
    LineEndInFront(a, b);
    assert (a + b)[..at] == a[..at] && (a + b)[at + 1..] == a[at + 1..] + b;
  }

  lemma {:induction false} FirstLine(a: Text)
    ensures HasLine(a) ==>
              && Lines(a) == [a[..LineEnd(a)]] + Lines(a[LineEnd(a) + 1..])
              && Rest(a) == Rest(a[LineEnd(a) + 1..])
    ensures !HasLine(a) ==> Lines(a) == [] && Rest(a) == a
  {
  }

  /** What is left open by the first part is continued by the second. */
  lemma {:induction false} LinesOfBoth(a: Text, b: Text)
    ensures Lines(a + b) == Lines(a) + Lines(Rest(a) + b)
    ensures Rest(a + b) == Rest(Rest(a) + b)
    decreases |a|
  {
    hide Lines, Rest, LineEnd;
    FirstLine(a);
    if HasLine(a) {
      var at := LineEnd(a);
      CutLine(a, b);
      LinesOfBoth(a[at + 1..], b);
      Regroup([a[..at]], Lines(a[at + 1..]), Lines(Rest(a) + b));
    }
  }

  lemma {:induction false} RestIsOpen(a: Text)
    ensures !HasLine(Rest(a))
    decreases |a|
  {
    if HasLine(a) {
      RestIsOpen(a[LineEnd(a) + 1..]);
    }
  }

  function Unsplit(lines: seq<Text>): Text {
    if lines == [] then [] else lines[0] + [NEWLINE] + Unsplit(lines[1..])
  }

  lemma UnsplitFirst(line: Text, lines: seq<Text>)
    ensures Unsplit([line] + lines) == line + [NEWLINE] + Unsplit(lines)
  {
    assert ([line] + lines)[1..] == lines;
  }

  lemma CutAtNewline(text: Text, rest: Text)
    requires HasLine(text) && rest == text[LineEnd(text) + 1..]
    ensures text == text[..LineEnd(text)] + [NEWLINE] + rest && NEWLINE !in text[..LineEnd(text)]
  {
  }

  lemma NoNewline(text: Text)
    requires !HasLine(text)
    ensures NEWLINE !in text
  {
  }

  /** The lines, each ended by its newline, and the rest are the text, and there is no other newline. */
  lemma {:induction false} LinesAreTheText(text: Text)
    ensures Unsplit(Lines(text)) + Rest(text) == text
    ensures forall line :: line in Lines(text) ==> NEWLINE !in line
    ensures NEWLINE !in Rest(text)
    decreases |text|
  {
    hide Lines, Rest, LineEnd, Unsplit;
    FirstLine(text);
    if HasLine(text) {
      var line, rest := text[..LineEnd(text)], text[LineEnd(text) + 1..];
      LinesAreTheText(rest);
      UnsplitFirst(line, Lines(rest));
      CutAtNewline(text, rest);
      Regroup(line + [NEWLINE], Unsplit(Lines(rest)), Rest(rest));
    } else {
      NoNewline(text);
      NoLines();
    }
  }

  lemma NoLines()
    ensures Unsplit([]) == []
  {
  }

  predicate ShortLines(text: Text) {
    |Rest(text)| <= PENDING_LIMIT && forall i :: 0 <= i < |Lines(text)| ==> |Lines(text)[i]| <= PENDING_LIMIT
  }

  lemma ShortPrefix(a: Text, b: Text)
    requires ShortLines(a + b)
    ensures ShortLines(a)
  {
    LinesOfBoth(a, b);
    RestIsOpen(a);
    LineEndInFront(Rest(a), b);
    var first := Rest(a) + b;
    assert forall i :: 0 <= i < |Lines(a)| ==> Lines(a)[i] == Lines(a + b)[i];
    if HasLine(first) {
      assert Lines(first)[0] == first[..LineEnd(first)];
      assert Lines(a + b)[|Lines(a)|] == Lines(first)[0];
    }
  }

  lemma {:induction false} TakeBoth(x: Codec, k: Kept, a: seq<Text>, b: seq<Text>)
    ensures TakeLines(x, k, a + b) == TakeLines(x, TakeLines(x, k, a), b)
    decreases |a|
  {
    if a == [] {
      assert a + b == b;
    } else {
      TailOfBoth(a, b);
      TakeBoth(x, TakeLine(x, k, a[0]), a[1..], b);
    }
  }

  // ----- Chunks do not matter -----

  function Concat(chunks: seq<seq<Byte>>): seq<Byte> { if chunks == [] then [] else chunks[0] + Concat(chunks[1..]) }

  /** The state after reading the stream in one go. */
  function Whole(x: Codec, stream: seq<Byte>): State {
    State(stream, |stream|, Rest(x.decode(stream)), TakeLines(x, NOTHING_KEPT, Lines(x.decode(stream))), false)
  }

  lemma StepText(x: Codec, stream: seq<Byte>, chunk: seq<Byte>)
    requires x.decode(stream) <= x.decode(stream + chunk)
    ensures var text := Rest(x.decode(stream)) + x.decode(stream + chunk)[|x.decode(stream)|..];
            && Rest(text) == Rest(x.decode(stream + chunk))
            && TakeLines(x, TakeLines(x, NOTHING_KEPT, Lines(x.decode(stream))), Lines(text))
            == TakeLines(x, NOTHING_KEPT, Lines(x.decode(stream + chunk)))
  {
    var old_, new_ := x.decode(stream), x.decode(stream + chunk);
    assert new_ == old_ + new_[|old_|..];
    LinesOfBoth(old_, new_[|old_|..]);
    TakeBoth(x, NOTHING_KEPT, Lines(old_), Lines(Rest(old_) + new_[|old_|..]));
  }

  /** A chunk that overflows nothing continues the whole. */
  lemma StepWhole(x: Codec, stream: seq<Byte>, chunk: seq<Byte>)
    requires x.decode(stream) <= x.decode(stream + chunk)
    requires |stream + chunk| <= WIRE_LIMIT && |Rest(x.decode(stream + chunk))| <= PENDING_LIMIT
    ensures Appended(x, Whole(x, stream), chunk) == Whole(x, stream + chunk)
  {
    hide Lines, Rest, TakeLines;
    StepText(x, stream, chunk);
  }

  /** However the stream is cut, the line left open at the cut fits. */
  ghost predicate NoLongPrefix(x: Codec, stream: seq<Byte>) {
    forall a, b :: a + b == stream ==> |Rest(x.decode(a))| <= PENDING_LIMIT
  }

  lemma {:induction false} ContinuedWhole(x: Codec, stream: seq<Byte>, chunks: seq<seq<Byte>>)
    requires Streams(x)
    requires |stream + Concat(chunks)| <= WIRE_LIMIT && NoLongPrefix(x, stream + Concat(chunks))
    ensures AppendedAll(x, Whole(x, stream), chunks) == Whole(x, stream + Concat(chunks))
    decreases |chunks|
  {
    hide Whole, Appended, Rest;
    if chunks == [] {
      assert stream + Concat(chunks) == stream;
    } else {
      var chunk, later := chunks[0], Concat(chunks[1..]);
      Regroup(stream, chunk, later);
      StepWhole(x, stream, chunk);
      ContinuedWhole(x, stream + chunk, chunks[1..]);
    }
  }

  lemma FitsSoFar(x: Codec, stream: seq<Byte>, later: seq<Byte>)
    requires Streams(x) && ShortLines(x.decode(stream + later))
    ensures |Rest(x.decode(stream))| <= PENDING_LIMIT
  {
    var text := x.decode(stream);
    var all := x.decode(stream + later);
    assert text <= all && all == text + all[|text|..];
    ShortPrefix(text, x.decode(stream + later)[|text|..]);
  }

  lemma EmptyWhole(x: Codec)
    requires Streams(x)
    ensures Whole(x, []) == INITIAL
  {
  }

  lemma NoLongPrefixIsEnough(x: Codec, chunks: seq<seq<Byte>>)
    requires Streams(x)
    requires |Concat(chunks)| <= WIRE_LIMIT && NoLongPrefix(x, Concat(chunks))
    ensures AppendedAll(x, INITIAL, chunks) == Whole(x, Concat(chunks))
  {
    EmptyWhole(x);
    assert [] + Concat(chunks) == Concat(chunks);
    ContinuedWhole(x, [], chunks);
  }

  lemma {:induction false} ExceededStays(x: Codec, s: State, chunks: seq<seq<Byte>>)
    requires Streams(x) && s.exceeded
    ensures AppendedAll(x, s, chunks).exceeded
    decreases |chunks|
  {
    if chunks != [] {
      hide Lines, Rest, TakeLines;
      ExceededStays(x, Appended(x, s, chunks[0]), chunks[1..]);
    }
  }

  /** A cut that leaves too long a line open is seen by the caller. */
  lemma LongPrefixExceeds(x: Codec, a: seq<Byte>, b: seq<Byte>)
    requires Streams(x) && |Rest(x.decode(a))| > PENDING_LIMIT
    ensures Concat([a, b]) == a + b && AppendedAll(x, INITIAL, [a, b]).exceeded
  {
    hide Lines, Rest, TakeLines;
    assert [a, b][1..] == [b] && Concat([b]) == b + Concat([b][1..]) && b + [] == b;
    assert [] + a == a && [] + x.decode(a) == x.decode(a) && x.decode(a)[0..] == x.decode(a);
    ExceededStays(x, Appended(x, INITIAL, a), [b]);
  }

  /** The exact condition: within the wire limit, every way to cut a stream gives the capture of the
      whole stream if and only if no cut leaves too long a line open. */
  lemma ChunksMatterExactlyWhen(x: Codec, stream: seq<Byte>)
    requires Streams(x) && |stream| <= WIRE_LIMIT
    ensures (forall chunks :: Concat(chunks) == stream ==> AppendedAll(x, INITIAL, chunks) == Whole(x, stream))
            <==> NoLongPrefix(x, stream)
  {
    if NoLongPrefix(x, stream) {
      forall chunks | Concat(chunks) == stream
        ensures AppendedAll(x, INITIAL, chunks) == Whole(x, stream)
      {
        NoLongPrefixIsEnough(x, chunks);
      }
    }
    if !NoLongPrefix(x, stream) {
      var a, b :| a + b == stream && |Rest(x.decode(a))| > PENDING_LIMIT;
      LongPrefixExceeds(x, a, b);
      assert Concat([a, b]) == stream && AppendedAll(x, INITIAL, [a, b]) != Whole(x, stream);
    }
  }

  lemma ShortLinesHaveNoLongPrefix(x: Codec, stream: seq<Byte>)
    requires Streams(x) && ShortLines(x.decode(stream))
    ensures NoLongPrefix(x, stream)
  {
    forall a, b | a + b == stream
      ensures |Rest(x.decode(a))| <= PENDING_LIMIT
    {
      FitsSoFar(x, a, b);
    }
  }

  /** So lines of at most the limit are enough for any two ways to cut a stream to end alike. */
  lemma SameStreamSameSnapshot(x: Codec, cs: seq<seq<Byte>>, ds: seq<seq<Byte>>)
    requires Streams(x) && Concat(cs) == Concat(ds)
    requires |Concat(cs)| <= WIRE_LIMIT && ShortLines(x.decode(Concat(cs)))
    ensures AppendedAll(x, INITIAL, cs) == AppendedAll(x, INITIAL, ds) == Whole(x, Concat(cs))
  {
    ShortLinesHaveNoLongPrefix(x, Concat(cs));
    NoLongPrefixIsEnough(x, cs);
    NoLongPrefixIsEnough(x, ds);
  }

  lemma AppendText(x: Codec, s: State, chunk: seq<Byte>, text: Text)
    requires x.decode(s.received) <= x.decode(s.received + chunk) && s.wire + |chunk| <= WIRE_LIMIT
    requires text == s.pending + x.decode(s.received + chunk)[|x.decode(s.received)|..]
    ensures Appended(x, s, chunk).kept.logs == TakeLines(x, s.kept, Lines(text)).logs
    ensures |Rest(text)| > PENDING_LIMIT ==> Appended(x, s, chunk).pending == []
    ensures Appended(x, s, chunk).received == s.received + chunk && Appended(x, s, chunk).wire == s.wire + |chunk|
  {
  }

  /** The length condition is needed: a longer line is captured if its newline comes with it, and
      lost if it comes one chunk later. */
  lemma LongLinesDependOnChunks(x: Codec, a: seq<Byte>, b: seq<Byte>, line: Line)
    requires Streams(x) && |a + b| <= WIRE_LIMIT
    requires !HasLine(x.decode(a)) && |x.decode(a)| > PENDING_LIMIT && x.decode(a + b) == x.decode(a) + [NEWLINE]
    requires x.parse(x.decode(a)) == Some(line) && x.parse([]) == None && line.message == []
    ensures AppendedAll(x, INITIAL, [a + b]).kept.logs == [line]
    ensures AppendedAll(x, INITIAL, [a, b]).kept.logs == []
  {
    hide Appended, Lines, Rest, TakeLines;
    var w := x.decode(a);
    assert [] + (a + b) == a + b && [] + a == a;
    OneLine(w);
    AppendText(x, INITIAL, a + b, w + [NEWLINE]);
    TakeOneLine(x, NOTHING_KEPT, w);
    CleanTextIsKept([], LINE_CHARACTERS);
    OneChunk(x, INITIAL, a + b);
    OpenLine(w);
    AppendText(x, INITIAL, a, w);
    TakeNoLine(x, NOTHING_KEPT);
    var s := Appended(x, INITIAL, a);
    assert [] + [NEWLINE] == [NEWLINE];
    OneLine([]);
    AppendText(x, s, b, [NEWLINE]);
    TakeOneLine(x, s.kept, []);
    OneChunk(x, s, b);
    assert [a, b][1..] == [b];
  }

  /** One byte, one code unit; every line but the empty one is an empty log line. */
  function Latin1(): Codec {
    Codec((bytes: seq<Byte>) => seq(|bytes|, i requires 0 <= i < |bytes| => bytes[i]),
          (text: Text) => if text == [] then None else Some(Line(Log, [])))
  }

  function Blanks(n: nat): seq<Byte> { seq(n, _ => 0x20) }

  /** Such a decoder and such streams exist: one line of blanks, above the limit, cut in two ways. */
  lemma SomeSnapshotsDiffer()
    ensures Streams(Latin1())
    ensures var a, b := Blanks(PENDING_LIMIT + 1), [NEWLINE as Byte];
            && |a + b| <= WIRE_LIMIT && !NoLongPrefix(Latin1(), a + b)
            && AppendedAll(Latin1(), INITIAL, [a + b]).kept.logs == [Line(Log, [])]
            && AppendedAll(Latin1(), INITIAL, [a, b]).kept.logs == []
  {
    var x, a, b := Latin1(), Blanks(PENDING_LIMIT + 1), [NEWLINE as Byte];
    assert x.decode([]) == [];
    assert forall c, d :: x.decode(c) <= x.decode(c + d);
    var w := x.decode(a);
    assert |w| == PENDING_LIMIT + 1 && forall i :: 0 <= i < |w| ==> w[i] != NEWLINE;
    assert LineEnd(w) == |w|;
    assert x.decode(a + b) == w + [NEWLINE];
    OpenLine(w);
    LongLinesDependOnChunks(x, a, b, Line(Log, []));
  }

  lemma OpenLine(w: Text)
    requires !HasLine(w)
    ensures Lines(w) == [] && Rest(w) == w
  {
  }

  lemma TakeNoLine(x: Codec, k: Kept)
    ensures TakeLines(x, k, []) == k
  {
  }

  lemma TakeOneLine(x: Codec, k: Kept, w: Text)
    ensures TakeLines(x, k, [w]) == TakeLine(x, k, w)
  {
    var one: seq<Text> := [w];
    assert one[1..] == [];
  }

  lemma OneChunk(x: Codec, s: State, chunk: seq<Byte>)
    requires Streams(x)
    ensures AppendedAll(x, s, [chunk]) == Appended(x, s, chunk)
  {
    var one: seq<seq<Byte>> := [chunk];
    assert one[1..] == [];
  }

  lemma OneLine(w: Text)
    requires !HasLine(w)
    ensures Lines(w + [NEWLINE]) == [w] && Rest(w + [NEWLINE]) == []
  {
    LineEndInFront(w, [NEWLINE]);
    var t := w + [NEWLINE];
    assert t[|w|] == NEWLINE && t[..|w|] == w && t[|w| + 1..] == [];
  }

  // ----- Every stream -----

  function TotalBytes(logs: seq<Line>): nat {
    if logs == [] then 0 else TotalBytes(logs[..|logs| - 1]) + Utf8Length(logs[|logs| - 1].message)
  }

  /** What the diagnostics schema asks of a snapshot, and text that PostgreSQL can hold. */
  predicate WithinLimits(k: Kept) {
    && |k.logs| <= LOG_LINES
    && TotalBytes(k.logs) == k.bytes <= LOG_BYTES
    && forall i :: 0 <= i < |k.logs| ==>
         && |k.logs[i].message| <= LINE_CHARACTERS && NUL !in k.logs[i].message && IsWellFormed(k.logs[i].message)
  }

  lemma NothingIsWithin()
    ensures WithinLimits(NOTHING_KEPT)
  {
  }

  lemma KeepStaysWithin(k: Kept, line: Line)
    requires WithinLimits(k)
    ensures WithinLimits(Keep(k, line))
  {
    RetainedIsPrintable(line.message, LINE_CHARACTERS);
    var r := Keep(k, line);
    if r.logs != k.logs {
      assert r.logs[..|r.logs| - 1] == k.logs;
    }
  }

  lemma {:induction false} LinesStayWithin(x: Codec, k: Kept, lines: seq<Text>)
    requires WithinLimits(k)
    ensures WithinLimits(TakeLines(x, k, lines))
    decreases |lines|
  {
    if lines != [] {
      hide WithinLimits;
      assert WithinLimits(TakeLine(x, k, lines[0])) by {
        TakeLineStaysWithin(x, k, lines[0]);
      }
      LinesStayWithin(x, TakeLine(x, k, lines[0]), lines[1..]);
    }
  }

  lemma TakeLineStaysWithin(x: Codec, k: Kept, text: Text)
    requires WithinLimits(k)
    ensures WithinLimits(TakeLine(x, k, text))
  {
    if x.parse(text).Some? {
      KeepStaysWithin(k, x.parse(text).value);
    }
  }

  /** The retained lines fit their limits and the open line fits its own, for every stream. */
  lemma {:induction false} EveryStreamStaysWithin(x: Codec, s: State, chunks: seq<seq<Byte>>)
    requires Streams(x) && WithinLimits(s.kept) && |s.pending| <= PENDING_LIMIT
    ensures WithinLimits(AppendedAll(x, s, chunks).kept) && |AppendedAll(x, s, chunks).pending| <= PENDING_LIMIT
    decreases |chunks|
  {
    if chunks != [] {
      hide TakeLines, Lines, Rest, TotalBytes;
      var text := s.pending + x.decode(s.received + chunks[0])[|x.decode(s.received)|..];
      LinesStayWithin(x, s.kept, Lines(text));
      EveryStreamStaysWithin(x, Appended(x, s, chunks[0]), chunks[1..]);
    }
  }

  /** Each line's message, complete and printable. */
  ghost predicate AllPrinted(x: Codec, logs: seq<Line>, lines: seq<Text>) {
    |logs| == |lines|
    && forall i :: 0 <= i < |lines| ==>
         x.parse(lines[i]).Some?
         && logs[i] == Line(x.parse(lines[i]).value.level, Printable(x.parse(lines[i]).value.message))
  }

  lemma TakePrints(x: Codec, k: Kept, text: Text)
    requires !TakeLine(x, k, text).truncated
    ensures !k.truncated && x.parse(text).Some?
    ensures TakeLine(x, k, text).logs
         == k.logs + [Line(x.parse(text).value.level, Printable(x.parse(text).value.message))]
  {
    RetainedIsPrintable(x.parse(text).value.message, LINE_CHARACTERS);
  }

  lemma {:induction false} UntruncatedPrintsAll(x: Codec, k: Kept, before: seq<Text>, lines: seq<Text>)
    requires AllPrinted(x, k.logs, before) && !TakeLines(x, k, lines).truncated
    ensures !k.truncated && AllPrinted(x, TakeLines(x, k, lines).logs, before + lines)
    decreases |lines|
  {
    if lines == [] {
      assert before + lines == before;
    } else {
      var next := TakeLine(x, k, lines[0]);
      StaysTruncated(x, next, lines[1..]);
      TakePrints(x, k, lines[0]);
      UntruncatedPrintsAll(x, next, before + [lines[0]], lines[1..]);
      assert before + [lines[0]] + lines[1..] == before + lines;
    }
  }

  lemma {:induction false} StaysTruncated(x: Codec, k: Kept, lines: seq<Text>)
    ensures k.truncated ==> TakeLines(x, k, lines).truncated
    decreases |lines|
  {
    if lines != [] {
      StaysTruncated(x, TakeLine(x, k, lines[0]), lines[1..]);
    }
  }

  lemma AppendKeepsTruncated(x: Codec, s: State, chunk: seq<Byte>)
    requires x.decode(s.received) <= x.decode(s.received + chunk) && s.kept.truncated
    ensures Appended(x, s, chunk).kept.truncated
  {
    hide Lines, Rest, TakeLines;
    StaysTruncated(x, s.kept, Lines(s.pending + x.decode(s.received + chunk)[|x.decode(s.received)|..]));
  }

  // ----- The capture itself -----

  lemma {:induction false} OneMoreChunk(x: Codec, s: State, chunks: seq<seq<Byte>>, chunk: seq<Byte>)
    requires Streams(x)
    ensures AppendedAll(x, s, chunks + [chunk]) == Appended(x, AppendedAll(x, s, chunks), chunk)
    decreases |chunks|
  {
    hide Appended;
    if chunks == [] {
      assert [] + [chunk] == [chunk];
      OneChunk(x, s, chunk);
    } else {
      TailOfBoth(chunks, [chunk]);
      OneMoreChunk(x, Appended(x, s, chunks[0]), chunks[1..], chunk);
    }
  }

  lemma {:induction false} ConcatOneMore(chunks: seq<seq<Byte>>, chunk: seq<Byte>)
    ensures Concat(chunks + [chunk]) == Concat(chunks) + chunk
    decreases |chunks|
  {
    if chunks == [] {
      assert [] + [chunk] == [chunk] && Concat([chunk]) == chunk + Concat([chunk][1..]);
    } else {
      TailOfBoth(chunks, [chunk]);
      ConcatOneMore(chunks[1..], chunk);
      Regroup(chunks[0], Concat(chunks[1..]), chunk);
    }
  }

  /** No chunk brings the stream above the wire limit or leaves too long a line open. */
  ghost predicate FitsTheWire(x: Codec, chunks: seq<seq<Byte>>) {
    forall k :: 0 <= k <= |chunks| ==>
      |Concat(chunks[..k])| <= WIRE_LIMIT && |Rest(x.decode(Concat(chunks[..k])))| <= PENDING_LIMIT
  }

  lemma FitsOneMore(x: Codec, chunks: seq<seq<Byte>>, chunk: seq<Byte>)
    ensures FitsTheWire(x, chunks + [chunk]) <==>
            && FitsTheWire(x, chunks)
            && |Concat(chunks) + chunk| <= WIRE_LIMIT && |Rest(x.decode(Concat(chunks) + chunk))| <= PENDING_LIMIT
  {
    hide Rest, Concat;
    ConcatOneMore(chunks, chunk);
    var all := chunks + [chunk];
    assert all[..|all|] == all;
    assert forall k :: 0 <= k <= |chunks| ==> all[..k] == chunks[..k];
  }

  lemma OverflowStep(x: Codec, stream: seq<Byte>, chunk: seq<Byte>)
    requires x.decode(stream) <= x.decode(stream + chunk)
    ensures var n := Appended(x, Whole(x, stream), chunk);
            && (n.exceeded <==> |stream + chunk| > WIRE_LIMIT || |Rest(x.decode(stream + chunk))| > PENDING_LIMIT)
            && (n.exceeded ==> n.kept.truncated)
            && (!n.exceeded ==> n == Whole(x, stream + chunk))
  {
    hide Lines, Rest, TakeLines;
    StepText(x, stream, chunk);
  }

  lemma AppendKeepsExceeded(x: Codec, s: State, chunk: seq<Byte>)
    requires x.decode(s.received) <= x.decode(s.received + chunk) && s.exceeded
    ensures Appended(x, s, chunk).exceeded
  {
    hide Lines, Rest, TakeLines;
  }

  /** The caller is told of an overflow exactly when a chunk does not fit; until then, what has been
      captured is the whole of the stream so far. */
  lemma {:induction false} ExceededExactlyWhen(x: Codec, chunks: seq<seq<Byte>>)
    requires Streams(x)
    ensures var s := AppendedAll(x, INITIAL, chunks);
            && (s.exceeded <==> !FitsTheWire(x, chunks))
            && (s.exceeded ==> s.kept.truncated)
            && (!s.exceeded ==> s == Whole(x, Concat(chunks)))
    decreases |chunks|
  {
    hide Whole, Appended, Rest, FitsTheWire, AppendedAll, Concat;
    if chunks == [] {
      NothingYet(x);
    } else {
      var first, chunk := chunks[..|chunks| - 1], chunks[|chunks| - 1];
      assert chunks == first + [chunk];
      ExceededExactlyWhen(x, first);
      OneMoreChunk(x, INITIAL, first, chunk);
      ConcatOneMore(first, chunk);
      FitsOneMore(x, first, chunk);
      var s := AppendedAll(x, INITIAL, first);
      if s.exceeded {
        AppendKeepsExceeded(x, s, chunk);
        AppendKeepsTruncated(x, s, chunk);
      } else {
        OverflowStep(x, Concat(first), chunk);
        WholeReceived(x, Concat(first));
      }
    }
  }

  lemma WholeReceived(x: Codec, stream: seq<Byte>)
    ensures Whole(x, stream).received == stream
  {
  }

  lemma NothingYet(x: Codec)
    requires Streams(x)
    ensures FitsTheWire(x, []) && AppendedAll(x, INITIAL, []) == INITIAL == Whole(x, Concat([]))
  {
    EmptyWhole(x);
  }

  /** The UTF-8 bytes of the lines' messages in printable form. */
  function PrintedBytes(x: Codec, lines: seq<Text>): nat {
    if lines == [] then 0
    else (match x.parse(lines[0])
          case None => 0
          case Some(line) => Utf8Length(Printable(line.message))) + PrintedBytes(x, lines[1..])
  }

  /** A log line whose message is short enough. */
  predicate GoodLine(x: Codec, text: Text) {
    x.parse(text).Some? && |Printable(x.parse(text).value.message)| <= LINE_CHARACTERS
  }

  /** Nothing has to be lost of these lines. */
  ghost predicate AllFit(x: Codec, lines: seq<Text>) {
    && (forall i :: 0 <= i < |lines| ==> GoodLine(x, lines[i]))
    && |lines| <= LOG_LINES
    && PrintedBytes(x, lines) <= LOG_BYTES
  }

  lemma TakeLineTruncates(x: Codec, k: Kept, text: Text)
    ensures var r := TakeLine(x, k, text);
            && (!r.truncated <==>
                  && !k.truncated && GoodLine(x, text) && |k.logs| < LOG_LINES
                  && k.bytes + Utf8Length(Printable(x.parse(text).value.message)) <= LOG_BYTES)
            && (!r.truncated ==>
                  |r.logs| == |k.logs| + 1 && r.bytes == k.bytes + Utf8Length(Printable(x.parse(text).value.message)))
  {
    hide Printable, Utf8Length;
    if x.parse(text).Some? {
      RetainedIsPrintable(x.parse(text).value.message, LINE_CHARACTERS);
    }
  }

  lemma {:induction false} TakeLinesTruncates(x: Codec, k: Kept, lines: seq<Text>)
    requires |k.logs| <= LOG_LINES && k.bytes <= LOG_BYTES
    ensures !TakeLines(x, k, lines).truncated <==>
            && !k.truncated && (forall i :: 0 <= i < |lines| ==> GoodLine(x, lines[i]))
            && |k.logs| + |lines| <= LOG_LINES && k.bytes + PrintedBytes(x, lines) <= LOG_BYTES
    decreases |lines|
  {
    hide TakeLine, GoodLine, Utf8Length, Printable;
    if lines != [] {
      var next := TakeLine(x, k, lines[0]);
      TakeLineTruncates(x, k, lines[0]);
      if next.truncated {
        StaysTruncated(x, next, lines[1..]);
        GoodLineParses(x, lines[0]);
      } else {
        GoodLineParses(x, lines[0]);
        TakeLinesTruncates(x, next, lines[1..]);
        assert forall i :: 1 <= i < |lines| ==> lines[i] == lines[1..][i - 1];
      }
    }
  }

  lemma GoodLineParses(x: Codec, text: Text)
    ensures GoodLine(x, text) ==> x.parse(text).Some?
  {
  }

  /** The exact condition for a complete capture, however the stream was cut: no chunk overflows, every
      complete line is a log line with a short enough message, and they are few and small enough. Then
      every one of them is held, in order and in full. */
  lemma TruncatedExactlyWhen(x: Codec, chunks: seq<seq<Byte>>)
    requires Streams(x)
    ensures var kept, lines := AppendedAll(x, INITIAL, chunks).kept, Lines(x.decode(Concat(chunks)));
            && (kept.truncated <==> !(FitsTheWire(x, chunks) && AllFit(x, lines)))
            && (!kept.truncated ==> AllPrinted(x, kept.logs, lines))
  {
    hide AppendedAll, FitsTheWire, Lines, TakeLines, AllPrinted, Concat, Rest;
    ExceededExactlyWhen(x, chunks);
    var lines := Lines(x.decode(Concat(chunks)));
    TakeLinesTruncates(x, NOTHING_KEPT, lines);
    if !AppendedAll(x, INITIAL, chunks).kept.truncated {
      assert [] + lines == lines;
      assert AllPrinted(x, NOTHING_KEPT.logs, []) by {
        NothingPrinted(x);
      }
      UntruncatedPrintsAll(x, NOTHING_KEPT, [], lines);
    }
  }

  lemma NothingPrinted(x: Codec)
    ensures AllPrinted(x, NOTHING_KEPT.logs, [])
  {
  }

  /** A line is dropped only if it is no log line or there is no room for it; any loss is marked. */
  lemma TakeLineIs(x: Codec, k: Kept, text: Text)
    requires WithinLimits(k)
    ensures var r := TakeLine(x, k, text);
            && WithinLimits(r) && (k.truncated ==> r.truncated)
            && (r.logs == k.logs <==>
                  || x.parse(text).None? || |k.logs| == LOG_LINES
                  || TotalBytes(k.logs) + Utf8Length(RetainCodeText(x.parse(text).value.message, LINE_CHARACTERS).message) > LOG_BYTES)
            && (r.logs != k.logs ==>
                  r.logs == k.logs + [Line(x.parse(text).value.level,
                                           RetainCodeText(x.parse(text).value.message, LINE_CHARACTERS).message)])
            && (!r.truncated ==>
                  x.parse(text).Some?
                  && r.logs == k.logs + [Line(x.parse(text).value.level, Printable(x.parse(text).value.message))])
  {
    hide Printable, Utf8Length, RetainCodeText;
    TakeLineStaysWithin(x, k, text);
    if !TakeLine(x, k, text).truncated {
      TakePrints(x, k, text);
    }
  }

  class TaskLogCapture {
    const codec: Codec
    var received: seq<Byte>
    var pending: Text
    var wire: nat
    var bytes: nat
    var truncated: bool
    var logs: seq<Line>
    // the `exceeded` callback has been called
    var exceeded: bool
    // every chunk so far
    ghost var chunks: seq<seq<Byte>>

    function Contents(): State
      reads this
    {
      State(received, wire, pending, Kept(logs, bytes, truncated), exceeded)
    }

    ghost predicate Valid()
      reads this
    {
      Streams(codec) && Contents() == AppendedAll(codec, INITIAL, chunks)
    }

    constructor (codec: Codec)
      requires Streams(codec)
      ensures Valid() && this.codec == codec && chunks == [] && logs == [] && !truncated
    {
      this.codec := codec;
      received, pending, logs := [], [], [];
      wire, bytes, truncated, exceeded := 0, 0, false, false;
      chunks := [];
    }

    method TakeOne(text: Text)
      modifies this`logs, this`bytes, this`truncated
      ensures Kept(logs, bytes, truncated) == TakeLine(codec, old(Contents()).kept, text)
      ensures WithinLimits(old(Contents()).kept) ==>
                && WithinLimits(Contents().kept)
                && (old(truncated) ==> truncated)
                && (logs == old(logs) <==>
                      || codec.parse(text).None? || |old(logs)| == LOG_LINES
                      || TotalBytes(old(logs))
                         + Utf8Length(RetainCodeText(codec.parse(text).value.message, LINE_CHARACTERS).message) > LOG_BYTES)
                && (logs != old(logs) ==>
                      logs == old(logs) + [Line(codec.parse(text).value.level,
                                                RetainCodeText(codec.parse(text).value.message, LINE_CHARACTERS).message)])
                && (!truncated ==>
                      codec.parse(text).Some?
                      && logs == old(logs) + [Line(codec.parse(text).value.level, Printable(codec.parse(text).value.message))])
    {
      hide WithinLimits, RetainCodeText, Utf8Length, Printable;
      ghost var k := Contents().kept;
      if WithinLimits(k) {
        TakeLineIs(codec, k, text);
      }
      var value := codec.parse(text);
      if value == None {
        truncated := true;
        return;
      }
      var retained := RetainCodeText(value.value.message, LINE_CHARACTERS);
      truncated := truncated || retained.truncated;
      var size := Utf8Length(retained.message);
      if |logs| >= LOG_LINES || bytes + size > LOG_BYTES {
        truncated := true;
        return;
      }
      logs := logs + [Line(value.value.level, retained.message)];
      bytes := bytes + size;
    }

    method Append(chunk: seq<Byte>)
      requires Valid()
      modifies this
      ensures Valid() && chunks == old(chunks) + [chunk] && Contents() == Appended(codec, old(Contents()), chunk)
      ensures WithinLimits(Contents().kept) && |pending| <= PENDING_LIMIT
      ensures exceeded <==> !FitsTheWire(codec, chunks)
    {
      hide FitsTheWire, WithinLimits;
      OneMoreChunk(codec, INITIAL, chunks, chunk);
      chunks := chunks + [chunk];
      assert WithinLimits(NOTHING_KEPT) by {
        NothingIsWithin();
      }
      EveryStreamStaysWithin(codec, INITIAL, chunks);
      ExceededExactlyWhen(codec, chunks);
      AppendChunk(chunk);
    }

    method AppendChunk(chunk: seq<Byte>)
      requires codec.decode(received) <= codec.decode(received + chunk)
      modifies this`received, this`pending, this`wire, this`bytes, this`truncated, this`logs, this`exceeded
      ensures Contents() == Appended(codec, old(Contents()), chunk)
    {
      hide WithinLimits, TotalBytes, Keep, RetainCodeText, Printable, Utf8Length;
      wire := wire + |chunk|;
      if wire > WIRE_LIMIT {
        truncated := true;
        exceeded := true;
        return;
      }
      pending := pending + codec.decode(received + chunk)[|codec.decode(received)|..];
      received := received + chunk;
      ghost var text, kept := pending, Contents().kept;
      while true
        invariant Rest(pending) == Rest(text)
        invariant TakeLines(codec, Kept(logs, bytes, truncated), Lines(pending)) == TakeLines(codec, kept, Lines(text))
        invariant received == old(received) + chunk && wire == old(wire) + |chunk| && exceeded == old(exceeded)
        decreases |pending|
      {
        var at := LineEnd(pending);
        if at == |pending| {
          if |pending| > PENDING_LIMIT {
            pending := [];
            truncated := true;
            exceeded := true;
          }
          return;
        }
        var line := pending[..at];
        pending := pending[at + 1..];
        TakeOne(line);
      }
    }

    /** What is handed out passes the diagnostics schema, and is complete unless it says otherwise. */
    method Snapshot() returns (lines: seq<Line>, lossy: bool)
      requires Valid()
      ensures lines == logs && lossy == truncated
      ensures WithinLimits(Kept(lines, TotalBytes(lines), lossy))
      ensures lossy <==> !(FitsTheWire(codec, chunks) && AllFit(codec, Lines(codec.decode(Concat(chunks)))))
      ensures !lossy ==> AllPrinted(codec, lines, Lines(codec.decode(Concat(chunks))))
    {
      EveryStreamStaysWithin(codec, INITIAL, chunks);
      TruncatedExactlyWhen(codec, chunks);
      return logs, truncated;
    }
  }
}
