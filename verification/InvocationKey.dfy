/** Execution identities of workflow steps (packages/workflow-engine/src/invocation-identity.ts). */
module InvocationKey {
  import opened Wrappers
  import opened CodeUnits
  import opened UriText
  import CodeText

  datatype Iteration = Iteration(loopNodeId: Text, ordinal: nat)

  datatype Identity = Identity(
    workflowVersionId: Text,
    nodeId: Text,
    branchPath: seq<Text>,
    iterationPath: seq<Iteration>)

  /** A key, or the reason why invocationKey throws. */
  datatype KeyResult = Key(text: Text) | TooLong | MalformedText

  const MAX_KEY_LENGTH := 256

  const BAR: CodeUnit := 0x7C
  const BRANCHES: Text := [0x62, COLON]
  const ITERATIONS: Text := [0x69, COLON]

  /** The parts with the separator between them. */
  function Join(parts: seq<Text>, separator: CodeUnit): Text {
    if parts == [] then []
    else if |parts| == 1 then parts[0]
    else parts[0] + ([separator] + Join(parts[1..], separator))
  }

  function IterationText(i: Iteration): Text { i.loopNodeId + ([COLON] + Decimal(i.ordinal)) }

  function IterationTexts(path: seq<Iteration>): seq<Text> {
    if path == [] then [] else [IterationText(path[0])] + IterationTexts(path[1..])
  }

  function Branches(id: Identity): Text { Join(id.branchPath, SLASH) }

  function Iterations(id: Identity): Text { Join(IterationTexts(id.iterationPath), SLASH) }

  function KeyText(version: Text, node: Text, branches: Text, iterations: Text): Text {
    version + ([BAR] + (node + ([BAR] + ((BRANCHES + branches) + ([BAR] + (ITERATIONS + iterations))))))
  }

  function InvocationKey(id: Identity): KeyResult {
    match (Encoded(id.workflowVersionId), Encoded(id.nodeId), Encoded(Branches(id)), Encoded(Iterations(id)))
    case (Some(v), Some(n), Some(b), Some(i)) =>
      var key := KeyText(v, n, b, i);
      if |key| > MAX_KEY_LENGTH then TooLong else Key(key)
    case _ => MalformedText
  }

  // ----- What a key looks like -----

  const ESCAPED_SLASH: Text := [PERCENT, 0x32, 0x46]
  const ESCAPED_COLON: Text := [PERCENT, 0x33, 0x41]

  function JoinEscaped(parts: seq<Text>): Text {
    if parts == [] then []
    else if |parts| == 1 then parts[0]
    else parts[0] + (ESCAPED_SLASH + JoinEscaped(parts[1..]))
  }

  /** Each text with its encoding. */
  ghost predicate Encodes(texts: seq<Text>, encoded: seq<Text>) {
    |encoded| == |texts| && forall i :: 0 <= i < |texts| ==> Encoded(texts[i]) == Some(encoded[i])
  }

  lemma SeparatorsEscaped()
    ensures Encoded([SLASH]) == Some(ESCAPED_SLASH) && Encoded([COLON]) == Some(ESCAPED_COLON)
    ensures Encoded([]) == Some([])
  {
    OnePoint(SLASH);
    OnePoint(COLON);
    hide Encoded;
    ByteExamples();
  }

  lemma EncodedBehind(a: Text, separator: CodeUnit, x: Text, escaped: Text)
    requires Encoded(a).Some? && Encoded(x).Some? && Encoded([separator]) == Some(escaped)
    ensures Encoded(a + ([separator] + x)) == Some(Encoded(a).value + (escaped + Encoded(x).value))
  {
    hide Encoded;
    EncodableEndsNoPair(a);
    EncodableEndsNoPair([separator]);
    EncodedConcatenation([separator], x);
    EncodedConcatenation(a, [separator] + x);
  }

  lemma {:induction false} EncodedJoin(parts: seq<Text>, encoded: seq<Text>)
    requires Encodes(parts, encoded)
    ensures Encoded(Join(parts, SLASH)) == Some(JoinEscaped(encoded))
    decreases |parts|
  {
    SeparatorsEscaped();
    hide Encoded;
    if |parts| > 1 {
      EncodedJoin(parts[1..], encoded[1..]);
      EncodedBehind(parts[0], SLASH, Join(parts[1..], SLASH), ESCAPED_SLASH);
    }
  }

  /** An iteration as it stands in a key, given the encoding of its loop's id. */
  function IterationsEscaped(path: seq<Iteration>, loops: seq<Text>): seq<Text>
    requires |loops| == |path|
  {
    seq(|path|, i requires 0 <= i < |path| => loops[i] + (ESCAPED_COLON + Decimal(path[i].ordinal)))
  }

  lemma {:induction false} IterationTextsAt(path: seq<Iteration>)
    ensures |IterationTexts(path)| == |path|
    ensures forall i :: 0 <= i < |path| ==> IterationTexts(path)[i] == IterationText(path[i])
  {
    if path != [] {
      IterationTextsAt(path[1..]);
    }
  }

  lemma IterationsEncode(path: seq<Iteration>, loops: seq<Text>)
    requires |loops| == |path| && forall i :: 0 <= i < |path| ==> Encoded(path[i].loopNodeId) == Some(loops[i])
    ensures Encodes(IterationTexts(path), IterationsEscaped(path, loops))
  {
    hide Encoded, IterationTexts;
    IterationTextsAt(path);
    SeparatorsEscaped();
    forall i | 0 <= i < |path|
      ensures Encoded(IterationTexts(path)[i]) == Some(IterationsEscaped(path, loops)[i])
    {
      EncodedDigits(Decimal(path[i].ordinal));
      EncodedBehind(path[i].loopNodeId, COLON, Decimal(path[i].ordinal), ESCAPED_COLON);
    }
  }

  /** The key, part by part: version, step, the branch parts and the passes, the last two joined by
      escaped slashes; it is given out unless it has more than 256 characters. */
  lemma KeyLayout(id: Identity, version: Text, node: Text, branches: seq<Text>, loops: seq<Text>)
    requires Encoded(id.workflowVersionId) == Some(version) && Encoded(id.nodeId) == Some(node)
    requires Encodes(id.branchPath, branches)
    requires |loops| == |id.iterationPath|
    requires forall i :: 0 <= i < |loops| ==> Encoded(id.iterationPath[i].loopNodeId) == Some(loops[i])
    ensures var key := version + [0x7C] + node + [0x7C, 0x62, 0x3A] + JoinEscaped(branches)
                       + [0x7C, 0x69, 0x3A] + JoinEscaped(IterationsEscaped(id.iterationPath, loops));
            InvocationKey(id) == if |key| > 256 then TooLong else Key(key)
  {
    hide Encoded, Join, JoinEscaped, IterationTexts;
    EncodedJoin(id.branchPath, branches);
    IterationsEncode(id.iterationPath, loops);
    EncodedJoin(IterationTexts(id.iterationPath), IterationsEscaped(id.iterationPath, loops));
    var b, i := JoinEscaped(branches), JoinEscaped(IterationsEscaped(id.iterationPath, loops));
    assert KeyText(version, node, b, i)
        == version + [0x7C] + node + [0x7C, 0x62, 0x3A] + b + [0x7C, 0x69, 0x3A] + i;
  }

  /** No key at all is given for text with a lone surrogate. */
  lemma MalformedExactlyWhen(id: Identity)
    ensures InvocationKey(id) == MalformedText <==>
              exists t, i :: t in [id.workflowVersionId, id.nodeId, Branches(id), Iterations(id)]
                             && 0 <= i < |t| && CodeText.Lone(t, i)
  {
    hide Encoded, Join, IterationTexts, CodeText.Lone;
    var all := [id.workflowVersionId, id.nodeId, Branches(id), Iterations(id)];
    assert all[0] in all && all[1] in all && all[2] in all && all[3] in all;
    forall t | t in all
      ensures Encoded(t).Some? <==> forall i :: 0 <= i < |t| ==> !CodeText.Lone(t, i)
    {
      EncodableExactlyWhen(t);
    }
  }

  // ----- Splitting at a separator -----

  predicate Free(t: Text, separator: CodeUnit) { separator !in t }

  /** The separator first occurs right behind the part before it. */
  predicate FirstAt(s: Text, separator: CodeUnit, at: nat) {
    at < |s| && s[at] == separator && forall k :: 0 <= k < at ==> s[k] != separator
  }

  lemma FirstSeparator(a: Text, x: Text, separator: CodeUnit)
    requires Free(a, separator)
    ensures FirstAt(a + ([separator] + x), separator, |a|)
    ensures (a + ([separator] + x))[..|a|] == a && (a + ([separator] + x))[|a| + 1..] == x
  {
    var s := a + ([separator] + x);
    assert forall k :: 0 <= k < |a| ==> s[k] == a[k];
  }

  lemma SplitAtSeparator(a: Text, x: Text, b: Text, y: Text, separator: CodeUnit)
    requires Free(a, separator) && Free(b, separator)
    requires a + ([separator] + x) == b + ([separator] + y)
    ensures a == b && x == y
  {
    FirstSeparator(a, x, separator);
    FirstSeparator(b, y, separator);
    assert |a| == |b|;
  }

  predicate AllFree(parts: seq<Text>, separator: CodeUnit) {
    forall i :: 0 <= i < |parts| ==> Free(parts[i], separator)
  }

  /** No part, or one empty part: the only two paths of separator-free parts that join alike. */
  predicate OnlyEmpty(parts: seq<Text>) { parts == [] || parts == [[]] }

  lemma JoinHasSeparator(ps: seq<Text>, separator: CodeUnit)
    requires |ps| > 1
    ensures separator in Join(ps, separator)
  {
    assert Join(ps, separator)[|ps[0]|] == separator;
  }

  lemma {:induction false} JoinInjective(ps: seq<Text>, qs: seq<Text>, separator: CodeUnit)
    requires AllFree(ps, separator) && AllFree(qs, separator)
    requires Join(ps, separator) == Join(qs, separator)
    ensures ps == qs || (OnlyEmpty(ps) && OnlyEmpty(qs))
    decreases |ps|
  {
    if |ps| > 1 {
      JoinHasSeparator(ps, separator);
    }
    if |qs| > 1 {
      JoinHasSeparator(qs, separator);
    }
    if |ps| > 1 && |qs| > 1 {
      SplitAtSeparator(ps[0], Join(ps[1..], separator), qs[0], Join(qs[1..], separator), separator);
      JoinInjective(ps[1..], qs[1..], separator);
      LongerThanOnlyEmpty(ps, qs);
    } else {
      assert |ps| == 1 ==> ps == [ps[0]];
      assert |qs| == 1 ==> qs == [qs[0]];
    }
  }

  lemma LongerThanOnlyEmpty(ps: seq<Text>, qs: seq<Text>)
    requires |ps| > 1 && |qs| > 1 && ps[0] == qs[0]
    requires ps[1..] == qs[1..] || (OnlyEmpty(ps[1..]) && OnlyEmpty(qs[1..]))
    ensures ps == qs
  {
    assert ps == [ps[0]] + ps[1..] && qs == [qs[0]] + qs[1..];
  }

  /** The ordinal is what follows the last colon. */
  lemma IterationTextInjective(a: Iteration, b: Iteration)
    requires IterationText(a) == IterationText(b)
    ensures a == b
  {
    LastColon(a);
    LastColon(b);
    var s, d, e := IterationText(a), Decimal(a.ordinal), Decimal(b.ordinal);
    assert |a.loopNodeId| == |b.loopNodeId|;
    assert d == s[|a.loopNodeId| + 1..] == e;
    assert a.loopNodeId == s[..|a.loopNodeId|] == b.loopNodeId;
    DecimalInjective(a.ordinal, b.ordinal);
  }

  lemma LastColon(i: Iteration)
    ensures var s := IterationText(i);
            s[|i.loopNodeId|] == COLON && forall k :: |i.loopNodeId| < k < |s| ==> s[k] != COLON
  {
    var s := IterationText(i);
    forall k | |i.loopNodeId| < k < |s|
      ensures s[k] != COLON
    {
      assert s[k] == Decimal(i.ordinal)[k - |i.loopNodeId| - 1];
    }
  }

  predicate SlashFree(path: seq<Iteration>) { forall i :: 0 <= i < |path| ==> Free(path[i].loopNodeId, SLASH) }

  lemma {:induction false} IterationTextsAreFree(path: seq<Iteration>)
    requires SlashFree(path)
    ensures |IterationTexts(path)| == |path| && AllFree(IterationTexts(path), SLASH)
    ensures [] !in IterationTexts(path)
  {
    if path != [] {
      IterationTextsAreFree(path[1..]);
      assert forall u :: u in Decimal(path[0].ordinal) ==> IsDigit(u);
    }
  }

  lemma {:induction false} IterationTextsInjective(p: seq<Iteration>, q: seq<Iteration>)
    requires IterationTexts(p) == IterationTexts(q)
    ensures p == q
    decreases |p|
  {
    if p != [] && q != [] {
      assert IterationTexts(p)[0] == IterationTexts(q)[0] && IterationTexts(p)[1..] == IterationTexts(q)[1..];
      IterationTextInjective(p[0], q[0]);
      IterationTextsInjective(p[1..], q[1..]);
    }
  }

  lemma PathInjective(p: seq<Iteration>, q: seq<Iteration>)
    requires SlashFree(p) && SlashFree(q)
    requires Join(IterationTexts(p), SLASH) == Join(IterationTexts(q), SLASH)
    ensures p == q
  {
    IterationTextsAreFree(p);
    IterationTextsAreFree(q);
    JoinInjective(IterationTexts(p), IterationTexts(q), SLASH);
    IterationTextsInjective(p, q);
  }

  // ----- Keys identify -----

  lemma EncodedIsBarFree(s: Text)
    requires Encoded(s).Some?
    ensures Free(Encoded(s).value, BAR) && Free(BRANCHES + Encoded(s).value, BAR)
  {
    EncodedIsPlain(s);
  }

  /** Two identities share a key exactly when they agree on version, step and both joined paths. */
  lemma KeysAgreeExactlyWhen(a: Identity, b: Identity)
    requires InvocationKey(a).Key? && InvocationKey(b).Key?
    ensures InvocationKey(a) == InvocationKey(b) <==>
              a.workflowVersionId == b.workflowVersionId && a.nodeId == b.nodeId
              && Branches(a) == Branches(b) && Iterations(a) == Iterations(b)
  {
    if InvocationKey(a) == InvocationKey(b) {
      var v, n, br, it := Encoded(a.workflowVersionId).value, Encoded(a.nodeId).value, Encoded(Branches(a)).value, Encoded(Iterations(a)).value;
      var w, m, cr, jt := Encoded(b.workflowVersionId).value, Encoded(b.nodeId).value, Encoded(Branches(b)).value, Encoded(Iterations(b)).value;
      EncodedIsBarFree(a.workflowVersionId);
      EncodedIsBarFree(b.workflowVersionId);
      EncodedIsBarFree(a.nodeId);
      EncodedIsBarFree(b.nodeId);
      EncodedIsBarFree(Branches(a));
      EncodedIsBarFree(Branches(b));
      KeyTextInjective(v, n, br, it, w, m, cr, jt);
      EncodedInjective(a.workflowVersionId, b.workflowVersionId);
      EncodedInjective(a.nodeId, b.nodeId);
      EncodedInjective(Branches(a), Branches(b));
      EncodedInjective(Iterations(a), Iterations(b));
    }
  }

  lemma KeyTextInjective(v: Text, n: Text, br: Text, it: Text, w: Text, m: Text, cr: Text, jt: Text)
    requires Free(v, BAR) && Free(n, BAR) && Free(BRANCHES + br, BAR)
    requires Free(w, BAR) && Free(m, BAR) && Free(BRANCHES + cr, BAR)
    requires KeyText(v, n, br, it) == KeyText(w, m, cr, jt)
    ensures v == w && n == m && br == cr && it == jt
  {
    var x3, y3 := ITERATIONS + it, ITERATIONS + jt;
    var x2, y2 := (BRANCHES + br) + ([BAR] + x3), (BRANCHES + cr) + ([BAR] + y3);
    var x1, y1 := n + ([BAR] + x2), m + ([BAR] + y2);
    SplitAtSeparator(v, x1, w, y1, BAR);
    SplitAtSeparator(n, x2, m, y2, BAR);
    SplitAtSeparator(BRANCHES + br, x3, BRANCHES + cr, y3, BAR);
    assert br == (BRANCHES + br)[2..] && cr == (BRANCHES + cr)[2..];
    assert it == x3[2..] && jt == y3[2..];
  }

  /** Without a slash inside a branch part or a loop id, a key has one identity, except that no branch
      part and one empty branch part look alike. */
  lemma KeysAreUnique(a: Identity, b: Identity)
    requires InvocationKey(a).Key? && InvocationKey(b).Key?
    requires AllFree(a.branchPath, SLASH) && AllFree(b.branchPath, SLASH)
    requires SlashFree(a.iterationPath) && SlashFree(b.iterationPath)
    ensures InvocationKey(a) == InvocationKey(b)
            <==> a == b || (a == b.(branchPath := a.branchPath) && OnlyEmpty(a.branchPath) && OnlyEmpty(b.branchPath))
  {
    hide InvocationKey;
    KeysAgreeExactlyWhen(a, b);
    if InvocationKey(a) == InvocationKey(b) {
      JoinInjective(a.branchPath, b.branchPath, SLASH);
      PathInjective(a.iterationPath, b.iterationPath);
    }
  }

  lemma PathsCanCollide()
    ensures Join([[0x61], [0x62]], SLASH) == [0x61, SLASH, 0x62]
    ensures Join(IterationTexts([Iteration([0x61], 1), Iteration([0x62], 2)]), SLASH)
         == Join(IterationTexts([Iteration([0x61, COLON, 0x31, SLASH, 0x62], 2)]), SLASH)
  {
    var two := [Iteration([0x61], 1), Iteration([0x62], 2)];
    assert IterationText(two[0]) == [0x61, COLON, 0x31] && IterationText(two[1]) == [0x62, COLON, 0x32];
    assert two[1..] == [two[1]] && IterationTexts([two[1]]) == [IterationText(two[1])];
    assert IterationTexts(two) == [[0x61, COLON, 0x31], [0x62, COLON, 0x32]];
    assert Join(IterationTexts(two), SLASH) == [0x61, COLON, 0x31, SLASH, 0x62, COLON, 0x32];
    var one := [Iteration([0x61, COLON, 0x31, SLASH, 0x62], 2)];
    assert IterationText(one[0]) == [0x61, COLON, 0x31, SLASH, 0x62, COLON, 0x32];
    assert IterationTexts(one) == [[0x61, COLON, 0x31, SLASH, 0x62, COLON, 0x32]];
  }

  /** The exception and the condition are real: an empty part, and a slash, make different paths look alike. */
  lemma KeysCanCollide(version: Text, node: Text)
    ensures InvocationKey(Identity(version, node, [], [])) == InvocationKey(Identity(version, node, [[]], []))
    ensures InvocationKey(Identity(version, node, [[0x61], [0x62]], []))
         == InvocationKey(Identity(version, node, [[0x61, SLASH, 0x62]], []))
    ensures InvocationKey(Identity(version, node, [], [Iteration([0x61], 1), Iteration([0x62], 2)]))
         == InvocationKey(Identity(version, node, [], [Iteration([0x61, COLON, 0x31, SLASH, 0x62], 2)]))
  {
    hide Encoded, KeyText, IterationTexts;
    PathsCanCollide();
  }

  // ----- Reading a loop's ordinal back -----

  datatype OrdinalResult = Ordinal(n: nat) | Undefined | Malformed

  /** The last position of the marker at or before `from`, or -1. */
  function LastIndexOf(key: Text, marker: Text, from: nat): (at: int)
    requires from + |marker| <= |key|
    ensures -1 <= at <= from
  {
    if key[from..from + |marker|] == marker then from else if from == 0 then -1 else LastIndexOf(key, marker, from - 1)
  }

  /** The pass a body step ran in, directly in the loop, inside the given path. */
  function LoopIterationOrdinal(key: Text, loopNodeId: Text, path: seq<Iteration>): OrdinalResult {
    var marker: Text := [BAR] + ITERATIONS;
    var at := if |key| < 3 then -1 else LastIndexOf(key, marker, |key| - 3);
    if at < 0 then Undefined
    else
      var iterations := key[at + 3..];
      match Encoded(Prefix(loopNodeId, path))
      case None => Malformed
      case Some(prefix) => OrdinalAfter(prefix, iterations)
  }

  /** After the prefix only a canonical number of at most nine digits counts. */
  function OrdinalAfter(prefix: Text, iterations: Text): OrdinalResult {
    if !(prefix <= iterations) then Undefined
    else
      var ordinal := iterations[|prefix|..];
      if Canonical(ordinal) && |ordinal| <= 9 then Ordinal(DecimalValue(ordinal)) else Undefined
  }

  function Prefix(loopNodeId: Text, path: seq<Iteration>): Text {
    Join(IterationTexts(path) + [loopNodeId + [COLON]], SLASH)
  }

  lemma {:induction false} LastIndexIs(key: Text, marker: Text, from: nat, at: nat)
    requires marker != [] && at <= from && from + |marker| <= |key| && key[at..at + |marker|] == marker
    requires forall i :: at < i <= from ==> key[i] != marker[0]
    ensures LastIndexOf(key, marker, from) == at
    decreases from
  {
    if at < from {
      assert key[from..from + |marker|][0] == key[from];
      LastIndexIs(key, marker, from - 1, at);
    }
  }

  lemma KeyTextSplits(v: Text, n: Text, br: Text, it: Text)
    ensures exists before: Text :: KeyText(v, n, br, it) == before + ([BAR] + ITERATIONS + it)
  {
    var before := v + ([BAR] + (n + ([BAR] + (BRANCHES + br))));
    assert KeyText(v, n, br, it) == before + ([BAR] + ITERATIONS + it);
  }

  lemma MarkerIn(before: Text, it: Text)
    requires Free(it, BAR)
    ensures var key := before + ([BAR] + ITERATIONS + it);
            |key| == |before| + |it| + 3 && LastIndexOf(key, [BAR] + ITERATIONS, |key| - 3) == |before|
            && key[|before| + 3..] == it
  {
    var marker := [BAR] + ITERATIONS;
    var key := before + (marker + it);
    assert key[|before|..|before| + 3] == marker;
    forall i | |before| < i <= |key| - 3
      ensures key[i] != BAR
    {
      assert key[i] == (marker + it)[i - |before|];
      assert i - |before| >= 3 ==> key[i] == it[i - |before| - 3];
    }
    LastIndexIs(key, marker, |key| - 3, |before|);
  }

  /** The encoded parts hold no bar, so the last marker is the one that invocationKey wrote. */
  lemma MarkerFound(v: Text, n: Text, br: Text, it: Text)
    requires Free(it, BAR)
    ensures var key := KeyText(v, n, br, it);
            |key| >= |it| + 3 && LastIndexOf(key, [BAR] + ITERATIONS, |key| - 3) == |key| - |it| - 3
            && key[|key| - |it|..] == it
  {
    hide KeyText, LastIndexOf;
    KeyTextSplits(v, n, br, it);
    var before: Text :| KeyText(v, n, br, it) == before + ([BAR] + ITERATIONS + it);
    MarkerIn(before, it);
  }

  // ----- Joining with one more part -----

  lemma {:induction false} JoinWithLast(parts: seq<Text>, last: Text, separator: CodeUnit)
    ensures Join(parts + [last], separator)
         == (if parts == [] then [] else Join(parts, separator) + [separator]) + last
    decreases |parts|
  {
    if parts == [] {
      assert [] + [last] == [last];
      assert [] + last == last;
    } else {
      JoinWithLast(parts[1..], last, separator);
      assert (parts + [last])[1..] == parts[1..] + [last];
      if |parts| > 1 {
        assert Join(parts + [last], separator) == parts[0] + ([separator] + (Join(parts[1..], separator) + [separator] + last));
        assert Join(parts, separator) + [separator] + last == parts[0] + ([separator] + (Join(parts[1..], separator) + [separator] + last));
      } else {
        assert Join(parts[1..] + [last], separator) == last by {
          assert [] + last == last;
        }
        assert parts[0] + ([separator] + last) == parts[0] + [separator] + last;
      }
    }
  }

  lemma {:induction false} IterationTextsAppend(path: seq<Iteration>, last: Iteration)
    ensures IterationTexts(path + [last]) == IterationTexts(path) + [IterationText(last)]
  {
    if path == [] {
      assert [] + [last] == [last];
      assert IterationTexts([last]) == [IterationText(last)] + IterationTexts([]);
    } else {
      IterationTextsAppend(path[1..], last);
      assert (path + [last])[1..] == path[1..] + [last];
    }
  }

  /** The prefix is the joined path up to the ordinal of one more pass. */
  lemma PrefixThenOrdinal(loopNodeId: Text, path: seq<Iteration>, n: nat)
    ensures Join(IterationTexts(path + [Iteration(loopNodeId, n)]), SLASH) == Prefix(loopNodeId, path) + Decimal(n)
    ensures Prefix(loopNodeId, path) != [] && !EndsHigh(Prefix(loopNodeId, path))
  {
    var texts, i := IterationTexts(path), Iteration(loopNodeId, n);
    IterationTextsAppend(path, i);
    JoinWithLast(texts, IterationText(i), SLASH);
    JoinWithLast(texts, loopNodeId + [COLON], SLASH);
    var front: Text := if texts == [] then [] else Join(texts, SLASH) + [SLASH];
    assert front + IterationText(i) == front + (loopNodeId + [COLON]) + Decimal(n);
    assert Prefix(loopNodeId, path)[|Prefix(loopNodeId, path)| - 1] == COLON;
  }

  /** The ordinal read from an encoded iteration path starting with the prefix. */
  lemma ReadAfterPrefix(prefix: Text, joined: Text, n: nat)
    requires Encoded(joined).Some? && Encoded(prefix).Some? && !EndsHigh(prefix)
    ensures (Encoded(prefix).value <= Encoded(joined).value
             && Encoded(joined).value[|Encoded(prefix).value|..] == Decimal(n))
            <==> joined == prefix + Decimal(n)
  {
    DecimalRoundTrip(n);
    EncodedDigits(Decimal(n));
    if joined == prefix + Decimal(n) {
      EncodedConcatenation(prefix, Decimal(n));
    }
    if Encoded(prefix).value <= Encoded(joined).value
       && Encoded(joined).value[|Encoded(prefix).value|..] == Decimal(n) {
      EncodedPrefix(prefix, joined);
      EncodedInjective(joined[|prefix|..], Decimal(n));
      assert joined == prefix + joined[|prefix|..];
    }
  }

  lemma OrdinalAfterIs(prefix: Text, iterations: Text, n: nat)
    ensures OrdinalAfter(prefix, iterations) == Ordinal(n)
            <==> prefix <= iterations && iterations[|prefix|..] == Decimal(n) && n < Power10(9)
  {
    hide Power10;
    DecimalRoundTrip(n);
    DigitCount(Decimal(n), 9);
    if prefix <= iterations && Canonical(iterations[|prefix|..]) {
      DecimalIsOnlyCanonical(iterations[|prefix|..]);
    }
  }

  lemma OrdinalOfKey(id: Identity, loopNodeId: Text, path: seq<Iteration>)
    requires InvocationKey(id).Key?
    ensures Encoded(Iterations(id)).Some?
    ensures LoopIterationOrdinal(InvocationKey(id).text, loopNodeId, path)
         == match Encoded(Prefix(loopNodeId, path))
            case None => Malformed
            case Some(prefix) => OrdinalAfter(prefix, Encoded(Iterations(id)).value)
  {
    hide Encoded, KeyText, Prefix, OrdinalAfter, Iterations, Branches;
    var it := Encoded(Iterations(id)).value;
    EncodedIsPlain(Iterations(id));
    MarkerFound(Encoded(id.workflowVersionId).value, Encoded(id.nodeId).value, Encoded(Branches(id)).value, it);
  }

  /** The ordinal is read exactly when the step ran in that loop directly inside that path,
      in a pass below 10^9: not from a shallower, deeper or different scope. */
  lemma OrdinalIsExact(id: Identity, loopNodeId: Text, path: seq<Iteration>, n: nat)
    requires InvocationKey(id).Key?
    requires SlashFree(id.iterationPath) && SlashFree(path) && Free(loopNodeId, SLASH)
    ensures LoopIterationOrdinal(InvocationKey(id).text, loopNodeId, path) == Ordinal(n)
            <==> id.iterationPath == path + [Iteration(loopNodeId, n)] && n < Power10(9)
  {
    hide Encoded, InvocationKey, LoopIterationOrdinal, Prefix, OrdinalAfter, Iterations, Power10;
    var joined, prefix := Iterations(id), Prefix(loopNodeId, path);
    OrdinalOfKey(id, loopNodeId, path);
    PrefixThenOrdinal(loopNodeId, path, n);
    SamePath(id, loopNodeId, path, n);
    EncodedConcatenation(prefix, Decimal(n));
    if Encoded(prefix).Some? {
      ReadAfterPrefix(prefix, joined, n);
      OrdinalAfterIs(Encoded(prefix).value, Encoded(joined).value, n);
    }
  }

  lemma SamePath(id: Identity, loopNodeId: Text, path: seq<Iteration>, n: nat)
    requires SlashFree(id.iterationPath) && SlashFree(path) && Free(loopNodeId, SLASH)
    ensures Iterations(id) == Prefix(loopNodeId, path) + Decimal(n) <==> id.iterationPath == path + [Iteration(loopNodeId, n)]
  {
    var other := path + [Iteration(loopNodeId, n)];
    PrefixThenOrdinal(loopNodeId, path, n);
    if Iterations(id) == Prefix(loopNodeId, path) + Decimal(n) {
      assert SlashFree(other);
      PathInjective(id.iterationPath, other);
    }
  }
}
