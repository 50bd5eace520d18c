/**
  Formatted numeric extraction from a character stream, as `operator>>` of a
  C++ `std::istringstream` performs it for `long`, `int` and `double` (GNU
  libstdc++, "C" locale), together with the text forms such numbers are
  written in and the lemmas that reading a written number gives it back.

  One extraction skips leading whitespace, then reads the longest prefix that
  looks like a number. Its outcome is one of:
  - `Extracted(value, next)`: a number was read; `next` is the position just
    after it;
  - `Exhausted`: only whitespace was left, so nothing was read and the target
    variable is left as it was;
  - `Malformed(stored)`: what follows is not a number, or the number does not
    fit the target type; the stream fails and `stored` (zero, or the bound of
    the type that was exceeded) is written to the target variable.
*/
module StreamExtraction {

  /** Range of a 64-bit `long int`. */
  const LongMin: int := -0x8000_0000_0000_0000
  const LongMax: int := 0x7FFF_FFFF_FFFF_FFFF

  /** Range of a 32-bit `int`. */
  const IntMin: int := -0x8000_0000
  const IntMax: int := 0x7FFF_FFFF

  datatype Extraction<T> = Extracted(value: T, next: nat) | Exhausted | Malformed(stored: T)

  /** The whitespace of the "C" locale. */
  predicate IsSpace(c: char) {
    c == ' ' || c == '\t' || c == '\n' || c == '\U{000B}' || c == '\U{000C}' || c == '\r'
  }

  predicate IsDigit(c: char) {
    '0' <= c <= '9'
  }

  predicate AllDigits(d: string) {
    forall j :: 0 <= j < |d| ==> IsDigit(d[j])
  }

  predicate AllSpace(s: string) {
    forall j :: 0 <= j < |s| ==> IsSpace(s[j])
  }

  function DigitValue(c: char): nat
    requires IsDigit(c)
  {
    (c as int) - ('0' as int)
  }

  function DigitChar(n: nat): (c: char)
    requires n < 10
    ensures IsDigit(c) && DigitValue(c) == n
  {
    (('0' as int) + n) as char
  }

  function Pow10(n: nat): (r: nat)
    ensures r >= 1
  {
    if n == 0 then 1 else 10 * Pow10(n - 1)
  }

  /** The first position at or after `pos` that does not hold whitespace. */
  function SkipSpace(s: string, pos: nat): (p: nat)
    requires pos <= |s|
    ensures pos <= p <= |s|
    ensures forall j :: pos <= j < p ==> IsSpace(s[j])
    ensures p < |s| ==> !IsSpace(s[p])
    decreases |s| - pos
  {
    if pos < |s| && IsSpace(s[pos]) then SkipSpace(s, pos + 1) else pos
  }

  /** The end of the run of digits that starts at `pos`. */
  function DigitsEnd(s: string, pos: nat): (p: nat)
    requires pos <= |s|
    ensures pos <= p <= |s|
    ensures forall j :: pos <= j < p ==> IsDigit(s[j])
    ensures p < |s| ==> !IsDigit(s[p])
    decreases |s| - pos
  {
    if pos < |s| && IsDigit(s[pos]) then DigitsEnd(s, pos + 1) else pos
  }

  /** The number the decimal digits of `s` from `a` up to `b` denote (leading zeros allowed). */
  function RunValue(s: string, a: nat, b: nat): nat
    requires a <= b <= |s|
    requires forall j :: a <= j < b ==> IsDigit(s[j])
    decreases b - a
  {
    if a == b then 0 else 10 * RunValue(s, a, b - 1) + DigitValue(s[b - 1])
  }

  function Negated(negative: bool, v: real): real {
    if negative then -v else v
  }

  /**
    `stream >> v` for an integer variable whose type holds `lo..hi`: an
    optional sign and at least one decimal digit. A value outside the type
    saturates to the exceeded bound and fails the stream.
  */
  function ExtractInteger(s: string, pos: nat, lo: int, hi: int): (r: Extraction<int>)
    requires pos <= |s| && lo <= 0 <= hi
    ensures r.Extracted? ==> lo <= r.value <= hi && pos < r.next <= |s|
    ensures r.Malformed? ==> r.stored == 0 || r.stored == lo || r.stored == hi
  {
    var start := SkipSpace(s, pos);
    if start == |s| then Exhausted
    else
      var digitsStart := if s[start] == '+' || s[start] == '-' then start + 1 else start;
      var digitsEnd := DigitsEnd(s, digitsStart);
      if digitsEnd == digitsStart then Malformed(0)
      else
        var magnitude := RunValue(s, digitsStart, digitsEnd);
        var v: int := if s[start] == '-' then -(magnitude as int) else magnitude;
        if v < lo then Malformed(lo)
        else if v > hi then Malformed(hi)
        else Extracted(v, digitsEnd)
  }

  /** The value of the mantissa with digits `intStart..intEnd`, a point, and digits `fracStart..fracEnd`. */
  function MantissaValue(s: string, intStart: nat, intEnd: nat, fracStart: nat, fracEnd: nat): real
    requires intStart <= intEnd <= fracStart <= fracEnd <= |s|
    requires forall j :: intStart <= j < intEnd ==> IsDigit(s[j])
    requires forall j :: fracStart <= j < fracEnd ==> IsDigit(s[j])
  {
    var scale := Pow10(fracEnd - fracStart);
    (RunValue(s, intStart, intEnd) * scale + RunValue(s, fracStart, fracEnd)) as real / scale as real
  }

  /** The exponent part that may follow a mantissa ending at `pos`. */
  datatype Exponent = NoExponent | Scale(factor: real, next: nat) | BadExponent

  function ExtractExponent(s: string, pos: nat): (e: Exponent)
    requires pos <= |s|
    ensures e.Scale? ==> pos < e.next <= |s| && e.factor > 0.0
  {
    if pos < |s| && (s[pos] == 'e' || s[pos] == 'E') then
      var expStart := pos + 1;
      var negative := expStart < |s| && s[expStart] == '-';
      var digitsStart := if expStart < |s| && (s[expStart] == '+' || s[expStart] == '-')
                         then expStart + 1 else expStart;
      var digitsEnd := DigitsEnd(s, digitsStart);
      if digitsEnd == digitsStart then BadExponent
      else
        var power := Pow10(RunValue(s, digitsStart, digitsEnd)) as real;
        Scale(if negative then 1.0 / power else power, digitsEnd)
    else NoExponent
  }

  /**
    `stream >> v` for a `double`: an optional sign, digits with at most one
    decimal point and at least one digit in all, then optionally `e` or `E`,
    an optional sign and at least one exponent digit. An exponent marker not
    followed by digits fails the stream.
  */
  function ExtractReal(s: string, pos: nat): (r: Extraction<real>)
    requires pos <= |s|
    ensures r.Extracted? ==> pos < r.next <= |s|
    ensures r.Malformed? ==> r.stored == 0.0
  {
    var start := SkipSpace(s, pos);
    if start == |s| then Exhausted
    else
      var intStart := if s[start] == '+' || s[start] == '-' then start + 1 else start;
      var intEnd := DigitsEnd(s, intStart);
      var fracStart := if intEnd < |s| && s[intEnd] == '.' then intEnd + 1 else intEnd;
      var fracEnd := DigitsEnd(s, fracStart);
      if intEnd == intStart && fracEnd == fracStart then Malformed(0.0)
      else
        var mantissa := MantissaValue(s, intStart, intEnd, fracStart, fracEnd);
        match ExtractExponent(s, fracEnd)
        case NoExponent => Extracted(Negated(s[start] == '-', mantissa), fracEnd)
        case Scale(factor, next) => Extracted(Negated(s[start] == '-', mantissa * factor), next)
        case BadExponent => Malformed(0.0)
  }

  // ----- The text a number is written as -----

  /** The shortest decimal digits of `n`. */
  function NatDigits(n: nat): (d: string)
    ensures |d| >= 1 && AllDigits(d)
  {
    if n < 10 then [DigitChar(n)] else NatDigits(n / 10) + [DigitChar(n % 10)]
  }

  /** The last `k` decimal digits of `n`, with leading zeros. */
  function FixedDigits(n: nat, k: nat): (d: string)
    ensures |d| == k && AllDigits(d)
  {
    if k == 0 then "" else FixedDigits(n / 10, k - 1) + [DigitChar(n % 10)]
  }

  function SignText(negative: bool): string {
    if negative then "-" else ""
  }

  function Magnitude(v: int): nat {
    if v < 0 then -v else v
  }

  function IntegerText(v: int): string {
    SignText(v < 0) + NatDigits(Magnitude(v))
  }

  /**
    A decimal number as a `double` column is written: a sign, the whole
    part, and `places` fraction digits whose value is `fraction`.
  */
  datatype Decimal = Decimal(negative: bool, whole: nat, fraction: nat, places: nat)

  predicate ValidDecimal(d: Decimal) {
    d.fraction < Pow10(d.places)
  }

  function DecimalValue(d: Decimal): real {
    var scale := Pow10(d.places);
    Negated(d.negative, (d.whole * scale + d.fraction) as real / scale as real)
  }

  /** `[-]W.F` where `F` has exactly `places` digits. */
  function DecimalText(d: Decimal): string {
    SignText(d.negative) + NatDigits(d.whole) + "." + FixedDigits(d.fraction, d.places)
  }

  // ----- Lemmas: reading back what was written -----

  /** `RunValue` depends only on the characters of the run. */
  lemma {:induction false} RunValueTransfer(s: string, a: nat, t: string, c: nat, n: nat)
    requires a + n <= |s| && c + n <= |t|
    requires forall j :: a <= j < a + n ==> IsDigit(s[j])
    requires forall j :: c <= j < c + n ==> IsDigit(t[j])
    requires forall j :: a <= j < a + n ==> s[j] == t[c + (j - a)]
    ensures RunValue(s, a, a + n) == RunValue(t, c, c + n)
  {
    if n > 0 {
      RunValueTransfer(s, a, t, c, n - 1);
      assert s[a + n - 1] == t[c + (n - 1)];
    }
  }

  lemma {:induction false} NatDigitsValue(n: nat)
    ensures RunValue(NatDigits(n), 0, |NatDigits(n)|) == n
  {
    if n >= 10 {
      var p := NatDigits(n / 10);
      var d := p + [DigitChar(n % 10)];
      NatDigitsValue(n / 10);
      RunValueTransfer(d, 0, p, 0, |p|);
    }
  }

  lemma {:induction false} FixedDigitsValue(n: nat, k: nat)
    requires n < Pow10(k)
    ensures RunValue(FixedDigits(n, k), 0, k) == n
  {
    if k > 0 {
      var p := FixedDigits(n / 10, k - 1);
      var d := p + [DigitChar(n % 10)];
      FixedDigitsValue(n / 10, k - 1);
      RunValueTransfer(d, 0, p, 0, k - 1);
    }
  }

  /** A run of `n` digits at `m` followed by a non-digit ends at `m + n`. */
  lemma DigitsEndAt(s: string, m: nat, n: nat)
    requires m + n <= |s|
    requires forall j :: m <= j < m + n ==> IsDigit(s[j])
    requires m + n == |s| || !IsDigit(s[m + n])
    ensures DigitsEnd(s, m) == m + n
  {
  }

  /** Whitespace from `pos` up to a non-whitespace character at `start`. */
  lemma SkipSpaceTo(s: string, pos: nat, start: nat)
    requires pos <= start < |s|
    requires forall j :: pos <= j < start ==> IsSpace(s[j])
    requires !IsSpace(s[start])
    ensures SkipSpace(s, pos) == start
  {
  }

  /** Reading starts at the same place wherever in a run of whitespace it begins. */
  lemma SkipSpaceAcross(s: string, pos: nat, pos': nat)
    requires pos <= pos' <= |s|
    requires forall j :: pos <= j < pos' ==> IsSpace(s[j])
    ensures SkipSpace(s, pos) == SkipSpace(s, pos')
  {
  }

  /** `text` occurs in `s` at position `m`. */
  ghost predicate Occurs(s: string, m: nat, text: string) {
    m + |text| <= |s| && forall j :: m <= j < m + |text| ==> s[j] == text[j - m]
  }

  /** The two halves of a text occur one after the other. */
  lemma OccursParts(s: string, m: nat, a: string, b: string)
    requires Occurs(s, m, a + b)
    ensures Occurs(s, m, a) && Occurs(s, m + |a|, b)
  {
    forall j | m + |a| <= j < m + |a| + |b| ensures s[j] == b[j - (m + |a|)] {
      assert s[j] == (a + b)[j - m];
    }
  }

  /** `text` occurs in `s` at `start`, after whitespace from `pos`, followed by whitespace or the end. */
  ghost predicate WrittenAt(s: string, pos: nat, start: nat, text: string) {
    && pos <= start
    && Occurs(s, start, text)
    && (forall j :: pos <= j < start ==> IsSpace(s[j]))
    && (start + |text| == |s| || IsSpace(s[start + |text|]))
  }

  /** The digits `d`, found in `s` at `m` and followed by a non-digit, are read as one run. */
  lemma DigitsAt(s: string, m: nat, d: string)
    requires AllDigits(d) && Occurs(s, m, d)
    requires m + |d| == |s| || !IsDigit(s[m + |d|])
    ensures forall j :: m <= j < m + |d| ==> IsDigit(s[j])
    ensures DigitsEnd(s, m) == m + |d|
    ensures RunValue(s, m, m + |d|) == RunValue(d, 0, |d|)
  {
    DigitsEndAt(s, m, |d|);
    RunValueTransfer(s, m, d, 0, |d|);
  }

  /** What `ExtractInteger` reads once the sign and the digit run are known: the value, or the bound it exceeds. */
  lemma ExtractIntegerOf(s: string, pos: nat, start: nat, digitsEnd: nat, v: int, lo: int, hi: int)
    requires pos <= start < |s| && lo <= 0 <= hi
    requires SkipSpace(s, pos) == start && s[start] != '+'
    requires s[start] == '-' <==> v < 0
    requires var digitsStart := if v < 0 then start + 1 else start;
             digitsStart < digitsEnd <= |s| && DigitsEnd(s, digitsStart) == digitsEnd
             && RunValue(s, digitsStart, digitsEnd) == Magnitude(v)
    ensures ExtractInteger(s, pos, lo, hi)
              == if v < lo then Malformed(lo) else if v > hi then Malformed(hi) else Extracted(v, digitsEnd)
  {
  }

  /** Where the sign and the digits of an integer written by `IntegerText` are, and what the digits denote. */
  lemma IntegerLayout(s: string, pos: nat, start: nat, v: int)
    requires WrittenAt(s, pos, start, IntegerText(v))
    ensures var digitsStart := if v < 0 then start + 1 else start;
            var end := start + |IntegerText(v)|;
            && start < |s| && SkipSpace(s, pos) == start && s[start] != '+' && (s[start] == '-' <==> v < 0)
            && digitsStart < end <= |s| && DigitsEnd(s, digitsStart) == end
            && RunValue(s, digitsStart, end) == Magnitude(v)
            && (end == |s| || IsSpace(s[end]))
  {
    var sign := SignText(v < 0);
    var digits := NatDigits(Magnitude(v));
    OccursParts(s, start, sign, digits);
    assert s[start] == (sign + digits)[0];
    SkipSpaceTo(s, pos, start);
    DigitsAt(s, start + |sign|, digits);
    NatDigitsValue(Magnitude(v));
  }

  /** Reading an integer written by `IntegerText` gives it back, when it fits the type. */
  lemma IntegerRoundTrip(s: string, pos: nat, start: nat, v: int, lo: int, hi: int)
    requires lo <= 0 <= hi && lo <= v <= hi
    requires WrittenAt(s, pos, start, IntegerText(v))
    ensures ExtractInteger(s, pos, lo, hi) == Extracted(v, start + |IntegerText(v)|)
  {
    IntegerLayout(s, pos, start, v);
    ExtractIntegerOf(s, pos, start, start + |IntegerText(v)|, v, lo, hi);
  }

  /**
    Reading an integer written by `IntegerText` that does not fit the type
    fails and stores the bound on the side it overflows: `hi` above, `lo` below.
  */
  lemma IntegerSaturates(s: string, pos: nat, start: nat, v: int, lo: int, hi: int)
    requires lo <= 0 <= hi && (v < lo || v > hi)
    requires WrittenAt(s, pos, start, IntegerText(v))
    ensures v > hi ==> ExtractInteger(s, pos, lo, hi) == Malformed(hi)
    ensures v < lo ==> ExtractInteger(s, pos, lo, hi) == Malformed(lo)
  {
    IntegerLayout(s, pos, start, v);
    ExtractIntegerOf(s, pos, start, start + |IntegerText(v)|, v, lo, hi);
  }

  /** What `ExtractReal` reads from `[-]digits` followed by whitespace or the end. */
  lemma ExtractRealWholeOf(s: string, pos: nat, start: nat, digitsEnd: nat, v: int)
    requires pos <= start < |s|
    requires SkipSpace(s, pos) == start && s[start] != '+' && (s[start] == '-' <==> v < 0)
    requires var digitsStart := if v < 0 then start + 1 else start;
             digitsStart < digitsEnd <= |s| && DigitsEnd(s, digitsStart) == digitsEnd
             && RunValue(s, digitsStart, digitsEnd) == Magnitude(v)
             && (digitsEnd == |s| || IsSpace(s[digitsEnd]))
    ensures ExtractReal(s, pos) == Extracted(v as real, digitsEnd)
  {
    var digitsStart := if v < 0 then start + 1 else start;
    assert DigitsEnd(s, digitsEnd) == digitsEnd;
    assert ExtractExponent(s, digitsEnd) == NoExponent;
    assert MantissaValue(s, digitsStart, digitsEnd, digitsEnd, digitsEnd) == Magnitude(v) as real;
  }

  /** Reading a whole number written by `IntegerText`, without a point, into a `double` gives it back. */
  lemma WholeRoundTrip(s: string, pos: nat, start: nat, v: int)
    requires WrittenAt(s, pos, start, IntegerText(v))
    ensures ExtractReal(s, pos) == Extracted(v as real, start + |IntegerText(v)|)
  {
    IntegerLayout(s, pos, start, v);
    ExtractRealWholeOf(s, pos, start, start + |IntegerText(v)|, v);
  }

  /** What `ExtractReal` reads from `[-]I.F` followed by whitespace or the end. */
  lemma ExtractRealOf(s: string, pos: nat, start: nat, intEnd: nat, d: Decimal)
    requires pos <= start < |s|
    requires SkipSpace(s, pos) == start && s[start] != '+' && (s[start] == '-' <==> d.negative)
    requires var intStart := if d.negative then start + 1 else start;
             var fracEnd := intEnd + 1 + d.places;
             && intStart < intEnd < |s| && fracEnd <= |s|
             && DigitsEnd(s, intStart) == intEnd && s[intEnd] == '.'
             && DigitsEnd(s, intEnd + 1) == fracEnd
             && RunValue(s, intStart, intEnd) == d.whole
             && RunValue(s, intEnd + 1, fracEnd) == d.fraction
             && (fracEnd == |s| || IsSpace(s[fracEnd]))
    ensures ExtractReal(s, pos) == Extracted(DecimalValue(d), intEnd + 1 + d.places)
  {
    var intStart := if d.negative then start + 1 else start;
    var fracEnd := intEnd + 1 + d.places;
    assert ExtractExponent(s, fracEnd) == NoExponent;
    assert MantissaValue(s, intStart, intEnd, intEnd + 1, fracEnd) == Negated(d.negative, DecimalValue(d));
  }

  /** Reading a decimal written by `DecimalText` gives its value back. */
  lemma DecimalRoundTrip(s: string, pos: nat, start: nat, d: Decimal)
    requires ValidDecimal(d)
    requires WrittenAt(s, pos, start, DecimalText(d))
    ensures ExtractReal(s, pos) == Extracted(DecimalValue(d), start + |DecimalText(d)|)
  {
    var intStart := start + |SignText(d.negative)|;
    var intEnd := intStart + |NatDigits(d.whole)|;
    DecimalLayout(s, start, d);
    DecimalDigits(s, intStart, intEnd, start + |DecimalText(d)|, d);
    SkipSpaceTo(s, pos, start);
    ExtractRealOf(s, pos, start, intEnd, d);
  }

  /** Where the sign, the whole digits, the point and the fraction digits of a written decimal are. */
  lemma DecimalLayout(s: string, start: nat, d: Decimal)
    requires Occurs(s, start, DecimalText(d))
    ensures var intStart := start + |SignText(d.negative)|;
            var intEnd := intStart + |NatDigits(d.whole)|;
            && start < |s| && !IsSpace(s[start]) && s[start] != '+' && (s[start] == '-' <==> d.negative)
            && Occurs(s, intStart, NatDigits(d.whole))
            && intEnd < |s| && s[intEnd] == '.'
            && Occurs(s, intEnd + 1, FixedDigits(d.fraction, d.places))
  {
    var sign := SignText(d.negative);
    var whole := NatDigits(d.whole);
    OccursParts(s, start, sign + whole + ".", FixedDigits(d.fraction, d.places));
    OccursParts(s, start, sign + whole, ".");
    OccursParts(s, start, sign, whole);
    assert s[start] == (sign + whole)[0];
    assert s[start + |sign| + |whole|] == "."[0];
  }

  /** What the two digit runs of a written decimal denote. */
  lemma DecimalDigits(s: string, intStart: nat, intEnd: nat, fracEnd: nat, d: Decimal)
    requires ValidDecimal(d)
    requires intEnd == intStart + |NatDigits(d.whole)| && fracEnd == intEnd + 1 + d.places
    requires Occurs(s, intStart, NatDigits(d.whole)) && intEnd < |s| && s[intEnd] == '.'
    requires Occurs(s, intEnd + 1, FixedDigits(d.fraction, d.places))
    requires fracEnd == |s| || IsSpace(s[fracEnd])
    ensures DigitsEnd(s, intStart) == intEnd && DigitsEnd(s, intEnd + 1) == fracEnd
    ensures RunValue(s, intStart, intEnd) == d.whole
    ensures RunValue(s, intEnd + 1, fracEnd) == d.fraction
  {
    DigitsAt(s, intStart, NatDigits(d.whole));
    DigitsAt(s, intEnd + 1, FixedDigits(d.fraction, d.places));
    NatDigitsValue(d.whole);
    FixedDigitsValue(d.fraction, d.places);
  }

  /** Reading at a position followed only by whitespace reads nothing. */
  lemma ExhaustedAt(s: string, pos: nat, lo: int, hi: int)
    requires pos <= |s| && lo <= 0 <= hi
    requires forall j :: pos <= j < |s| ==> IsSpace(s[j])
    ensures ExtractInteger(s, pos, lo, hi) == Exhausted
    ensures ExtractReal(s, pos) == Exhausted
  {
  }

  /** A field that starts with a character no number can start with fails and stores zero. */
  lemma MalformedAt(s: string, pos: nat, start: nat, lo: int, hi: int)
    requires pos <= start < |s| && lo <= 0 <= hi
    requires forall j :: pos <= j < start ==> IsSpace(s[j])
    requires !IsSpace(s[start]) && !IsDigit(s[start])
    requires s[start] != '+' && s[start] != '-' && s[start] != '.'
    ensures ExtractInteger(s, pos, lo, hi) == Malformed(0)
    ensures ExtractReal(s, pos) == Malformed(0.0)
  {
    SkipSpaceTo(s, pos, start);
  }
}
