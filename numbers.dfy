/** Numeric literals (`parse_number`, app.py:23-29): the regular
    expression `\d+(\.\d+)?` written as an explicit scan over ASCII digits,
    and the literal's value as an exact rational number. */
module Numbers {
  import opened Results
  import opened Text

  predicate AllDigits(s: string) {
    forall i :: 0 <= i < |s| ==> IsDigit(s[i])
  }

  function DigitValue(c: char): (d: nat)
    requires IsDigit(c)
    ensures d < 10
  {
    c as int - '0' as int
  }

  /** The number a run of decimal digits denotes, most significant first. */
  function DigitsValue(s: string): nat
    requires AllDigits(s)
  {
    if s == [] then 0 else 10 * DigitsValue(s[..|s| - 1]) + DigitValue(s[|s| - 1])
  }

  function Pow10(k: nat): (p: nat)
    ensures p > 0
  {
    if k == 0 then 1 else 10 * Pow10(k - 1)
  }

  /** The length of the longest run of digits in `t` from index `i`,
      which is what a greedy `\d+` takes there (0 when it does not match). */
  function DigitRun(t: string, i: nat): (n: nat)
    requires i <= |t|
    decreases |t| - i
    ensures i + n <= |t|
    ensures forall j :: i <= j < i + n ==> IsDigit(t[j])
    ensures i + n == |t| || !IsDigit(t[i + n])
  {
    if i < |t| && IsDigit(t[i]) then 1 + DigitRun(t, i + 1) else 0
  }

  /** A literal `whole` or `whole.frac`; an empty `frac` means the
      optional group `(\.\d+)` did not take part in the match. */
  datatype Numeral = Numeral(whole: string, frac: string)

  predicate WellFormed(n: Numeral) {
    n.whole != [] && AllDigits(n.whole) && AllDigits(n.frac)
  }

  /** The text of a literal. */
  function Spell(n: Numeral): string {
    if n.frac == [] then n.whole else n.whole + "." + n.frac
  }

  /** A run of `k` digits denotes less than 10^k. */
  lemma {:induction false} DigitsBelow(s: string)
    requires AllDigits(s)
    ensures DigitsValue(s) < Pow10(|s|)
  {
    if s != [] {
      DigitsBelow(s[..|s| - 1]);
    }
  }

  /** What `float(m.group())` denotes, computed exactly: the whole part's
      digits plus the fraction's digits over 10^(number of fraction digits).
      The fraction adds less than one to the whole part. */
  function Value(n: Numeral): (v: real)
    requires WellFormed(n)
    ensures DigitsValue(n.whole) as real <= v < (DigitsValue(n.whole) + 1) as real
  {
    DigitsBelow(n.frac);
    FractionBelowOne(DigitsValue(n.frac), Pow10(|n.frac|));
    DigitsValue(n.whole) as real + DigitsValue(n.frac) as real / Pow10(|n.frac|) as real
  }

  /** A proper fraction of a positive denominator is below one. */
  lemma FractionBelowOne(f: nat, p: nat)
    requires f < p
    ensures 0.0 <= f as real / p as real < 1.0
  {
    var q := f as real / p as real;
    assert q * p as real == f as real;
  }

  /** The text after a literal would let the greedy match go on: one more
      digit, or (after a whole number) a '.' followed by a digit. */
  predicate Extends(n: Numeral, rest: string) {
    || (rest != [] && IsDigit(rest[0]))
    || (n.frac == [] && |rest| >= 2 && rest[0] == '.' && IsDigit(rest[1]))
  }

  /** The greedy match of `\d+(\.\d+)?` at the start of `t`, which begins
      with a digit: the digits, then a '.' and the digits after it when at
      least one digit follows the '.'. ScanNumeralMatch shows that `t`
      starts with the literal and that the text after it cannot extend it. */
  function ScanNumeral(t: string): (n: Numeral)
    requires t != [] && IsDigit(t[0])
    ensures WellFormed(n)
    ensures |Spell(n)| <= |t|
  {
    var k := DigitRun(t, 0);
    var m := if k + 1 < |t| && t[k] == '.' then DigitRun(t, k + 1) else 0;
    if m == 0 then Numeral(t[..k], "") else Numeral(t[..k], t[k + 1..k + 1 + m])
  }

  /** The scanned literal is where the match stops: `t` starts with its
      spelling, and the text after it cannot extend it. */
  lemma ScanNumeralMatch(t: string)
    requires t != [] && IsDigit(t[0])
    ensures var n := ScanNumeral(t);
      t[..|Spell(n)|] == Spell(n) && !Extends(n, t[|Spell(n)|..])
  {
    var k := DigitRun(t, 0);
    var m := if k + 1 < |t| && t[k] == '.' then DigitRun(t, k + 1) else 0;
    if m != 0 {
      var spelled := t[..k] + "." + t[k + 1..k + 1 + m];
      assert forall j | 0 <= j < k + 1 + m :: t[..k + 1 + m][j] == spelled[j];
      assert t[..k + 1 + m] == spelled;
    }
  }

  /** `parse_number`: skip whitespace, then match `\d+(\.\d+)?` at the
      start (failing with NumberRequired when no digit is there) and return
      the literal's value with the text after it. */
  function ParseNumber(s: string): (r: Result<Parsed>)
    ensures r.Err? <==> (SkipSpaces(s) == [] || !IsDigit(SkipSpaces(s)[0]))
    ensures r.Err? ==> r.error == NumberRequired
    ensures r.Ok? ==> |r.value.rest| < |SkipSpaces(s)|
    ensures r.Ok? ==> r.value.rest == [] || !IsDigit(r.value.rest[0])
  {
    var t := SkipSpaces(s);
    if t == [] || !IsDigit(t[0]) then
      Err(NumberRequired)
    else
      var n := ScanNumeral(t);
      ScanNumeralMatch(t);
      Ok(Parsed(Value(n), t[|Spell(n)|..]))
  }

  /** A run of `n` digits from index `i` that no digit follows is what
      DigitRun finds there. */
  lemma {:induction false} DigitRunAt(t: string, i: nat, n: nat)
    requires i + n <= |t|
    requires forall j :: i <= j < i + n ==> IsDigit(t[j])
    requires i + n == |t| || !IsDigit(t[i + n])
    ensures DigitRun(t, i) == n
    decreases n
  {
    if n > 0 {
      DigitRunAt(t, i + 1, n - 1);
    }
  }

  /** The scan recognises a whole number that neither a digit nor a '.'
      and a digit follow. */
  lemma ScanWhole(n: Numeral, rest: string)
    requires WellFormed(n) && n.frac == [] && !Extends(n, rest)
    ensures ScanNumeral(n.whole + rest) == n
  {
    var t := n.whole + rest;
    var k := |n.whole|;
    DigitRunAt(t, 0, k);
    assert t[..k] == n.whole;
  }

  /** The scan recognises a literal with a fraction part that no digit
      follows. */
  lemma ScanFraction(n: Numeral, rest: string)
    requires WellFormed(n) && n.frac != [] && !Extends(n, rest)
    ensures ScanNumeral(n.whole + "." + n.frac + rest) == n
  {
    var t := n.whole + "." + n.frac + rest;
    var k := |n.whole|;
    var m := |n.frac|;
    DigitRunAt(t, 0, k);
    DigitRunAt(t, k + 1, m);
    assert t[..k] == n.whole;
    assert t[k + 1..k + 1 + m] == n.frac;
  }

  /** The scan recognises every well-formed literal that is not followed
      by text extending it. */
  lemma ScanNumeralSpell(n: Numeral, rest: string)
    requires WellFormed(n) && !Extends(n, rest)
    ensures Spell(n) + rest != [] && IsDigit((Spell(n) + rest)[0])
    ensures ScanNumeral(Spell(n) + rest) == n
  {
    if n.frac == [] {
      ScanWhole(n, rest);
    } else {
      ScanFraction(n, rest);
    }
  }

  /** Reading back a spelled literal: whitespace, then a well-formed
      literal, then text that does not extend it, parses to the literal's
      value and leaves exactly that text. */
  lemma ParseNumberSpell(w: string, n: Numeral, rest: string)
    requires AllSpaces(w) && WellFormed(n) && !Extends(n, rest)
    ensures ParseNumber(w + Spell(n) + rest) == Ok(Parsed(Value(n), rest))
  {
    var t := Spell(n) + rest;
    assert w + Spell(n) + rest == w + t;
    ScanNumeralSpell(n, rest);
    SkipSpacesOf(w, t);
    assert t[|Spell(n)|..] == rest;
  }

  /** Every successful ParseNumber read a well-formed literal after the
      whitespace, with its value, and stopped where the greedy match stops. */
  lemma ParseNumberRead(s: string)
    requires ParseNumber(s).Ok?
    ensures var p := ParseNumber(s).value;
      exists n :: WellFormed(n) && SkipSpaces(s) == Spell(n) + p.rest
        && p.value == Value(n) && !Extends(n, p.rest)
  {
    var t := SkipSpaces(s);
    var n := ScanNumeral(t);
    ScanNumeralMatch(t);
    assert t == t[..|Spell(n)|] + t[|Spell(n)|..];
  }

  /** What ParseNumber leaves is a suffix of its input. */
  lemma ParseNumberSuffix(s: string)
    ensures ParseNumber(s).Ok? ==> IsSuffix(ParseNumber(s).value.rest, s)
  {
    var t := SkipSpaces(s);
    if ParseNumber(s).Ok? {
      SkipSpacesDrops(s);
      var k := |Spell(ScanNumeral(t))|;
      assert IsSuffix(t[k..], t);
      SuffixTransitive(t[k..], t, s);
    }
  }
}
