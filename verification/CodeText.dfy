/** Making captured text printable (apps/code-runner/src/process/diagnostics.ts, retainCodeText). */
module CodeText {
  import opened CodeUnits
  import opened Sequences

  const NUL: CodeUnit := 0
  const REPLACEMENT: CodeUnit := 0xFFFD
  const ESCAPED_NUL: Text := [0x5C, 0x75, 0x30, 0x30, 0x30, 0x30]

  predicate IsSurrogate(u: CodeUnit) { IsHigh(u) || IsLow(u) }

  /** toWellFormed: each lone surrogate becomes U+FFFD. */
  function ToWellFormed(t: Text): (r: Text)
    ensures |r| == |t|
  {
    if t == [] then []
    else if StartsPair(t) then t[..2] + ToWellFormed(t[2..])
    else [if IsSurrogate(t[0]) then REPLACEMENT else t[0]] + ToWellFormed(t[1..])
  }

  /** isWellFormed: surrogates come in pairs only. */
  predicate IsWellFormed(t: Text) {
    t == [] || (if StartsPair(t) then IsWellFormed(t[2..]) else !IsSurrogate(t[0]) && IsWellFormed(t[1..]))
  }

  /** Each NUL becomes its visible six-character escape. */
  function EscapeNul(t: Text): (r: Text)
    ensures NUL !in r
    ensures |r| >= |t|
  {
    if t == [] then [] else (if t[0] == NUL then ESCAPED_NUL else [t[0]]) + EscapeNul(t[1..])
  }

  datatype Retained = Retained(message: Text, truncated: bool)

  function Printable(value: Text): Text { EscapeNul(ToWellFormed(value)) }

  function RetainCodeText(value: Text, maximum: nat): Retained {
    var printable := Printable(value);
    Retained(ToWellFormed(if |printable| > maximum then printable[..maximum] else printable), |printable| > maximum)
  }

  lemma {:induction false} WellFormedIsWellFormed(t: Text)
    ensures IsWellFormed(ToWellFormed(t))
    decreases |t|
  {
    if StartsPair(t) {
      WellFormedIsWellFormed(t[2..]);
      assert ToWellFormed(t)[2..] == ToWellFormed(t[2..]);
    } else if t != [] {
      WellFormedIsWellFormed(t[1..]);
      assert ToWellFormed(t)[1..] == ToWellFormed(t[1..]);
    }
  }

  lemma {:induction false} WellFormedStays(t: Text)
    requires IsWellFormed(t)
    ensures ToWellFormed(t) == t
    decreases |t|
  {
    if StartsPair(t) {
      WellFormedStays(t[2..]);
    } else if t != [] {
      WellFormedStays(t[1..]);
    }
  }

  lemma {:induction false} NulFreeStays(t: Text)
    requires NUL !in t
    ensures EscapeNul(t) == t
  {
    if t != [] {
      NulFreeStays(t[1..]);
    }
  }

  lemma {:induction false} EscapingKeepsPairs(t: Text)
    requires IsWellFormed(t)
    ensures IsWellFormed(EscapeNul(t))
    decreases |t|
  {
    if StartsPair(t) {
      EscapingKeepsPairs(t[2..]);
      var rest := EscapeNul(t[2..]);
      assert t[1..][1..] == t[2..];
      assert EscapeNul(t) == [t[0]] + ([t[1]] + rest);
      assert EscapeNul(t)[2..] == rest;
    } else if t != [] {
      EscapingKeepsPairs(t[1..]);
      var rest := EscapeNul(t[1..]);
      if t[0] == NUL {
        PlainInFront(ESCAPED_NUL, rest);
      } else {
        PlainInFront([t[0]], rest);
      }
    }
  }

  lemma {:induction false} PlainInFront(plain: Text, rest: Text)
    requires IsWellFormed(rest) && forall u :: u in plain ==> !IsSurrogate(u)
    ensures IsWellFormed(plain + rest)
  {
    if plain == [] {
      assert plain + rest == rest;
    } else {
      PlainInFront(plain[1..], rest);
      TailOfBoth(plain, rest);
    }
  }

  lemma {:induction false} NulStaysOut(t: Text)
    requires NUL !in t
    ensures NUL !in ToWellFormed(t)
    decreases |t|
  {
    if StartsPair(t) {
      NulStaysOut(t[2..]);
    } else if t != [] {
      NulStaysOut(t[1..]);
    }
  }

  /** A surrogate at i without its other half beside it. */
  predicate Lone(t: Text, i: nat)
    requires i < |t|
  {
    || (IsHigh(t[i]) && !(i + 1 < |t| && IsLow(t[i + 1])))
    || (IsLow(t[i]) && !(i > 0 && IsHigh(t[i - 1])))
  }

  lemma LoneLater(t: Text, n: nat, i: nat)
    requires n <= i < |t| && (i == n && n > 0 ==> !(IsLow(t[n]) && IsHigh(t[n - 1])))
    ensures Lone(t, i) <==> Lone(t[n..], i - n)
  {
  }

  /** Well-formed text has no lone surrogate. */
  lemma {:induction false} WellFormedExactlyWhen(t: Text)
    ensures IsWellFormed(t) <==> forall i :: 0 <= i < |t| ==> !Lone(t, i)
    decreases |t|
  {
    if t != [] {
      hide Lone;
      var n := if StartsPair(t) then 2 else 1;
      WellFormedExactlyWhen(t[n..]);
      FirstIsLone(t);
      forall i | n <= i < |t|
        ensures Lone(t, i) <==> Lone(t[n..], i - n)
      {
        LoneLater(t, n, i);
      }
      assert forall i :: 0 <= i < |t| - n ==> (Lone(t[n..], i) <==> Lone(t, i + n));
    }
  }

  lemma FirstIsLone(t: Text)
    requires t != []
    ensures StartsPair(t) ==> !Lone(t, 0) && !Lone(t, 1)
    ensures !StartsPair(t) ==> (Lone(t, 0) <==> IsSurrogate(t[0]))
  {
  }

  /** Every character is kept but lone surrogates. */
  lemma {:induction false} WellFormedAt(t: Text, i: nat)
    requires i < |t|
    ensures ToWellFormed(t)[i] == if Lone(t, i) then REPLACEMENT else t[i]
    decreases |t|
  {
    hide Lone;
    var n := if StartsPair(t) then 2 else 1;
    FirstIsLone(t);
    if n <= i {
      WellFormedAt(t[n..], i - n);
      LoneLater(t, n, i);
    }
  }

  /** Escaping works character by character. */
  lemma {:induction false} EscapeBoth(a: Text, b: Text)
    ensures EscapeNul(a + b) == EscapeNul(a) + EscapeNul(b)
    ensures forall u :: EscapeNul([u]) == if u == NUL then ESCAPED_NUL else [u]
  {
    if a == [] {
      assert a + b == b;
    } else {
      TailOfBoth(a, b);
      EscapeBoth(a[1..], b);
      Regroup(if a[0] == NUL then ESCAPED_NUL else [a[0]], EscapeNul(a[1..]), EscapeNul(b));
    }
  }

  /** Too long a text keeps its first characters; only a pair that the cut splits leaves a mark. */
  lemma RetainedKeepsTheFirst(value: Text, maximum: nat, i: nat)
    requires i < maximum && i < |Printable(value)|
    ensures var m, p := RetainCodeText(value, maximum).message, Printable(value);
            && |m| == (if |p| > maximum then maximum else |p|)
            && (m[i] == p[i] || (i == maximum - 1 && IsHigh(p[i]) && m[i] == REPLACEMENT))
  {
    hide Lone, IsWellFormed, ToWellFormed, EscapeNul;
    var p := Printable(value);
    WellFormedIsWellFormed(value);
    EscapingKeepsPairs(ToWellFormed(value));
    WellFormedExactlyWhen(p);
    var kept := if |p| > maximum then p[..maximum] else p;
    WellFormedAt(kept, i);
    CutIsLone(p, kept, i);
  }

  lemma CutIsLone(p: Text, kept: Text, i: nat)
    requires kept <= p && i < |kept| && !Lone(p, i)
    ensures Lone(kept, i) ==> i == |kept| - 1 && IsHigh(p[i]) && |kept| < |p|
  {
  }

  /** What is retained is bounded, printable and well-formed, and complete unless marked truncated. */
  lemma RetainedIsPrintable(value: Text, maximum: nat)
    ensures var r := RetainCodeText(value, maximum);
            && |r.message| <= maximum && NUL !in r.message && IsWellFormed(r.message)
            && (!r.truncated ==> r.message == Printable(value))
            && (r.truncated <==> |Printable(value)| > maximum)
  {
    var printable := Printable(value);
    WellFormedIsWellFormed(value);
    EscapingKeepsPairs(ToWellFormed(value));
    if |printable| > maximum {
      NulStaysOut(printable[..maximum]);
      WellFormedIsWellFormed(printable[..maximum]);
    } else {
      WellFormedStays(printable);
    }
  }

  /** Clean text of at most the maximum is retained as it is. */
  lemma CleanTextIsKept(value: Text, maximum: nat)
    requires IsWellFormed(value) && NUL !in value
    ensures |value| <= maximum <==> RetainCodeText(value, maximum) == Retained(value, false)
  {
    WellFormedStays(value);
    NulFreeStays(value);
  }
}
