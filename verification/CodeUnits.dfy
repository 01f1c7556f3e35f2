/** JavaScript strings: sequences of UTF-16 code units, their UTF-8 size, and the
    decimal text that String(n) gives a non-negative integer. */
module CodeUnits {

  type CodeUnit = u: int | 0 <= u < 0x1_0000
  type Text = seq<CodeUnit>

  const SLASH: CodeUnit := 0x2F
  const COLON: CodeUnit := 0x3A

  predicate IsHigh(u: CodeUnit) { 0xD800 <= u < 0xDC00 }

  predicate IsLow(u: CodeUnit) { 0xDC00 <= u < 0xE000 }

  /** The text starts with a surrogate pair, one code point above U+FFFF. */
  predicate StartsPair(s: Text) { |s| >= 2 && IsHigh(s[0]) && IsLow(s[1]) }

  predicate EndsHigh(s: Text) { s != [] && IsHigh(s[|s| - 1]) }

  predicate IsDigit(u: CodeUnit) { 0x30 <= u <= 0x39 }

  /** Buffer.byteLength: a lone surrogate is replaced by U+FFFD, three bytes. */
  function Utf8Length(s: Text): nat {
    if s == [] then 0
    else if StartsPair(s) then 4 + Utf8Length(s[2..])
    else (if s[0] < 0x80 then 1 else if s[0] < 0x800 then 2 else 3) + Utf8Length(s[1..])
  }

  lemma {:induction false} Utf8LengthAtLeastUnits(s: Text)
    ensures Utf8Length(s) >= |s|
    decreases |s|
  {
    if StartsPair(s) {
      Utf8LengthAtLeastUnits(s[2..]);
    } else if s != [] {
      Utf8LengthAtLeastUnits(s[1..]);
    }
  }

  /** Counting piece by piece is right as long as no piece boundary splits a pair. */
  lemma {:induction false} Utf8LengthOfConcatenation(a: Text, b: Text)
    requires !EndsHigh(a) || b == [] || !IsLow(b[0])
    ensures Utf8Length(a + b) == Utf8Length(a) + Utf8Length(b)
    decreases |a|
  {
    if a == [] {
      assert a + b == b;
    } else if StartsPair(a) {
      assert (a + b)[2..] == a[2..] + b;
      Utf8LengthOfConcatenation(a[2..], b);
    } else {
      assert (a + b)[1..] == a[1..] + b;
      Utf8LengthOfConcatenation(a[1..], b);
    }
  }

  /** String(n) for a non-negative integer. */
  function Decimal(n: nat): (ds: Text)
    ensures ds != [] && forall i :: 0 <= i < |ds| ==> IsDigit(ds[i])
  {
    if n < 10 then [0x30 + n] else Decimal(n / 10) + [0x30 + n % 10]
  }

  predicate AllDigits(ds: Text) { forall i :: 0 <= i < |ds| ==> IsDigit(ds[i]) }

  /** Number(ds) for a run of digits. */
  function DecimalValue(ds: Text): nat
    requires AllDigits(ds)
  {
    if ds == [] then 0 else 10 * DecimalValue(ds[..|ds| - 1]) + (ds[|ds| - 1] - 0x30)
  }

  /** Digits without a redundant leading zero: (?:0|[1-9]\d*). */
  predicate Canonical(ds: Text) { ds != [] && AllDigits(ds) && (ds[0] == 0x30 ==> |ds| == 1) }

  lemma {:induction false} DecimalRoundTrip(n: nat)
    ensures Canonical(Decimal(n)) && DecimalValue(Decimal(n)) == n
    ensures n > 0 ==> Decimal(n)[0] != 0x30
  {
    if n >= 10 {
      DecimalRoundTrip(n / 10);
      assert Decimal(n)[..|Decimal(n)| - 1] == Decimal(n / 10);
    }
  }

  lemma {:induction false} DecimalIsOnlyCanonical(ds: Text)
    requires Canonical(ds)
    ensures Decimal(DecimalValue(ds)) == ds
  {
    var front := ds[..|ds| - 1];
    if |ds| == 1 {
      assert DecimalValue(front) == 0;
      assert ds == [ds[0]];
    } else {
      assert front[0] == ds[0];
      DecimalIsOnlyCanonical(front);
      CanonicalIsPositive(front);
      var d: int := ds[|ds| - 1] - 0x30;
      assert (10 * DecimalValue(front) + d) / 10 == DecimalValue(front);
      assert ds == front + [ds[|ds| - 1]];
    }
  }

  lemma {:induction false} CanonicalIsPositive(ds: Text)
    requires AllDigits(ds) && ds != [] && ds[0] != 0x30
    ensures DecimalValue(ds) > 0
  {
    if |ds| > 1 {
      CanonicalIsPositive(ds[..|ds| - 1]);
    }
  }

  lemma DecimalInjective(m: nat, n: nat)
    requires Decimal(m) == Decimal(n)
    ensures m == n
  {
    DecimalRoundTrip(m);
    DecimalRoundTrip(n);
  }

  /** A canonical run of digits is below 10^k exactly when it has at most k digits. */
  lemma {:induction false} DigitCount(ds: Text, k: nat)
    requires Canonical(ds) && k > 0
    ensures |ds| <= k <==> DecimalValue(ds) < Power10(k)
    decreases k
  {
    var front := ds[..|ds| - 1];
    if |ds| == 1 {
      assert DecimalValue(front) == 0;
      PowerAtLeastTen(k);
    } else {
      assert front[0] == ds[0];
      CanonicalIsPositive(ds[..|ds| - 1]);
      if k > 1 {
        DigitCount(front, k - 1);
      }
    }
  }

  lemma {:induction false} PowerAtLeastTen(k: nat)
    requires k > 0
    ensures Power10(k) >= 10
  {
    if k > 1 {
      PowerAtLeastTen(k - 1);
    }
  }

  function Power10(k: nat): nat { if k == 0 then 1 else 10 * Power10(k - 1) }
}
