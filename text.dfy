/** Characters and whitespace skipping (`skip_spaces`, app.py:21). */
module Text {

  /** The characters CPython's `str.isspace` accepts, which is what
      `str.lstrip()` without arguments removes. */
  predicate IsSpace(c: char) {
    || '\t' <= c <= '\r'
    || '\U{1c}' <= c <= ' '
    || c == '\U{85}' || c == '\U{a0}' || c == '\U{1680}'
    || '\U{2000}' <= c <= '\U{200a}'
    || c == '\U{2028}' || c == '\U{2029}' || c == '\U{202f}'
    || c == '\U{205f}' || c == '\U{3000}'
  }

  /** An ASCII decimal digit. */
  predicate IsDigit(c: char) {
    '0' <= c <= '9'
  }

  predicate AllSpaces(s: string) {
    forall i :: 0 <= i < |s| ==> IsSpace(s[i])
  }

  /** `s` does not begin with whitespace. */
  predicate Stripped(s: string) {
    s == [] || !IsSpace(s[0])
  }

  /** `r` is what is left of `s` once some prefix has been consumed. */
  predicate IsSuffix(r: string, s: string) {
    |r| <= |s| && s[|s| - |r|..] == r
  }

  lemma {:induction false} SuffixTransitive(a: string, b: string, c: string)
    requires IsSuffix(a, b) && IsSuffix(b, c)
    ensures IsSuffix(a, c)
  {
    var i, j := |c| - |b|, |b| - |a|;
    assert c[|c| - |a|..] == c[i..][j..];
  }

  /** Dropping the first character leaves a suffix. */
  lemma DropFirst(s: string)
    requires s != []
    ensures IsSuffix(s[1..], s)
  {
  }

  /** Python's `expr.lstrip()`: the input without its leading whitespace.
      The result is no longer than the input and does not start with
      whitespace; SkipSpacesDrops says what was removed. */
  function SkipSpaces(s: string): (r: string)
    ensures |r| <= |s|
    ensures Stripped(r)
  {
    if s != [] && IsSpace(s[0]) then SkipSpaces(s[1..]) else s
  }

  /** What SkipSpaces removes is a prefix made only of whitespace: the
      result is a suffix of the input. With Stripped, this pins the result
      down (SkipSpacesOf). */
  lemma {:induction false} SkipSpacesDrops(s: string)
    ensures IsSuffix(SkipSpaces(s), s)
    ensures AllSpaces(s[..|s| - |SkipSpaces(s)|])
  {
    if s != [] && IsSpace(s[0]) {
      SkipSpacesDrops(s[1..]);
      var k := |s| - |SkipSpaces(s)|;
      assert s[1..][..k - 1] == s[1..k];
      assert s[1..][k - 1..] == s[k..];
    }
  }

  /** Stripping is idempotent. */
  lemma SkipSpacesIdempotent(s: string)
    ensures SkipSpaces(SkipSpaces(s)) == SkipSpaces(s)
  {
  }

  /** The contract of SkipSpaces has exactly one solution: whitespace
      followed by text that does not start with whitespace strips to that
      text. */
  lemma {:induction false} SkipSpacesOf(w: string, t: string)
    requires AllSpaces(w) && Stripped(t)
    ensures SkipSpaces(w + t) == t
  {
    if w != [] {
      assert (w + t)[1..] == w[1..] + t;
      SkipSpacesOf(w[1..], t);
    }
  }

  /** The whitespace SkipSpaces removes from the front of `s`. */
  function Blanks(s: string): string {
    s[..|s| - |SkipSpaces(s)|]
  }

  /** Every text is its leading whitespace followed by what SkipSpaces
      leaves. */
  lemma BlanksThenRest(s: string)
    ensures AllSpaces(Blanks(s)) && s == Blanks(s) + SkipSpaces(s)
  {
    SkipSpacesDrops(s);
    assert s == s[..|s| - |SkipSpaces(s)|] + s[|s| - |SkipSpaces(s)|..];
  }

  // ---------- regrouping concatenations of text

  /** Regrouping the text of a parse level: what it read, then the blanks
      and the remainder after it. */
  lemma Regroup2(a: string, b: string, pad: string, rest: string)
    ensures a + (b + pad + rest) == a + b + pad + rest
  {
  }

  lemma Regroup3(a: string, b: string, pad: string, rest: string)
    ensures a + (b + pad + rest) == a + b + (pad + rest)
  {
  }

  /** The text of one loop round: blanks, the operator, an operand `p`,
      and then `y`, which the rest of the loop reads as `q`, blanks and
      the final remainder. */
  lemma StepText(x: string, ws: string, u: string, p: string, y: string, q: string, pad: string, rest: string)
    requires x == ws + u && u != [] && u[1..] == p + y && y == q + pad + rest
    ensures x == ws + [u[0]] + p + q + pad + rest
  {
    assert u == [u[0]] + u[1..];
  }

  /** Regrouping the text of a group around its inner expression. */
  lemma RegroupGroup(ws: string, inner: string, pad: string, rest: string)
    ensures ws + (['('] + (inner + pad + ([')'] + rest))) == ws + "(" + inner + pad + ")" + rest
  {
  }

  /** The text starts with its first character. */
  lemma Uncons(u: string)
    requires u != []
    ensures u == [u[0]] + u[1..]
  {
  }

  /** Regrouping the text of one step: its token, then everything after. */
  lemma Regroup(lead: string, a: string, b: string, rest: string)
    ensures lead + a + b + rest == lead + (a + b + rest)
    ensures lead + a + b + rest == lead + (a + (b + rest))
  {
  }

  /** Regrouping the text of a group: '(' and then everything after it. */
  lemma GroupText(ws: string, inner: string, wsClose: string, rest: string)
    ensures ws + "(" + inner + wsClose + ")" + rest == ws + ['('] + (inner + (wsClose + [')'] + rest))
  {
  }
}
