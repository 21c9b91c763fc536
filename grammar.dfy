/** The recursive-descent parser and evaluator of app.py:31-69 as
    functions. `parse_term` and `parse_expression` loop while the next
    token is one of their operators; here each loop is a tail-recursive
    function (TermTail, ExprTail) that folds the operands into an
    accumulator from left to right. Calculator proves its while-loop
    methods equal to these functions. */
module Grammar {
  import opened Results
  import opened Text
  import opened Numbers

  /** Starts with the character `c`. */
  predicate StartsWith(s: string, c: char) {
    s != [] && s[0] == c
  }

  /** A successful answer leaves no more of the text than `s`; when
      `strict`, less (the call consumed at least one character). That is
      what makes the mutual recursion terminate. */
  predicate Shrinks(r: Result<Parsed>, s: string, strict: bool) {
    r.Ok? ==> |r.value.rest| <= |s| && (strict ==> |r.value.rest| < |s|)
  }

  /** A successful answer whose remainder is a suffix of `s`. */
  predicate KeepsSuffix(r: Result<Parsed>, s: string) {
    r.Ok? ==> IsSuffix(r.value.rest, s)
  }

  /** The errors the parse functions below the top level can raise:
      everything but MalformedExpression. */
  predicate ParseLevelError(r: Result<Parsed>) {
    r.Err? ==> r.error != MalformedExpression
  }

  /** `parse_factor`: after whitespace, either '(' expression ')' or a
      number. */
  function ParseFactor(s: string): (r: Result<Parsed>)
    decreases |s|, 0
    ensures Shrinks(r, s, true)
    ensures ParseLevelError(r)
  {
    var t := SkipSpaces(s);
    if StartsWith(t, '(') then
      match ParseExpression(t[1..])
      case Err(e) => Err(e)
      case Ok(inner) =>
        var u := SkipSpaces(inner.rest);
        if StartsWith(u, ')') then
          Ok(Parsed(inner.value, u[1..]))
        else
          Err(CloseParenRequired)
    else
      SkipSpacesIdempotent(s);
      ParseNumber(t)
  }

  /** The loop of `parse_term` from accumulator `acc` on the text `rest`:
      while the next non-blank character is '*' or '/', read a factor and
      fold it into the accumulator; then stop, returning the accumulator
      and the stripped text. */
  function TermTail(acc: real, rest: string): (r: Result<Parsed>)
    decreases |rest|, 0
    ensures Shrinks(r, rest, false)
    ensures ParseLevelError(r)
    ensures r.Ok? ==> Stripped(r.value.rest)
    ensures r.Ok? ==> !StartsWith(r.value.rest, '*') && !StartsWith(r.value.rest, '/')
  {
    var u := SkipSpaces(rest);
    if StartsWith(u, '*') then
      match ParseFactor(u[1..])
      case Err(e) => Err(e)
      case Ok(f) => TermTail(Product(acc, f.value), f.rest)
    else if StartsWith(u, '/') then
      match ParseFactor(u[1..])
      case Err(e) => Err(e)
      case Ok(f) =>
        if f.value == 0.0 then Err(DivisionByZero) else TermTail(acc / f.value, f.rest)
    else
      Ok(Parsed(acc, u))
  }

  /** `parse_term`: a factor, then the multiplicative loop. */
  function ParseTerm(s: string): (r: Result<Parsed>)
    decreases |s|, 1
    ensures Shrinks(r, s, true)
    ensures ParseLevelError(r)
    ensures r.Ok? ==> Stripped(r.value.rest)
    ensures r.Ok? ==> !StartsWith(r.value.rest, '*') && !StartsWith(r.value.rest, '/')
  {
    match ParseFactor(s)
    case Err(e) => Err(e)
    case Ok(f) =>
      TermTail(f.value, f.rest)
  }

  /** The loop of `parse_expression`: while the next non-blank character
      is '+' or '-', read a term and fold it into the accumulator. When it
      read a term, the remainder is one ParseTerm left. */
  function ExprTail(acc: real, rest: string): (r: Result<Parsed>)
    decreases |rest|, 0
    ensures Shrinks(r, rest, false)
    ensures ParseLevelError(r)
    ensures r.Ok? ==> Stripped(r.value.rest)
    ensures r.Ok? ==> !StartsWith(r.value.rest, '+') && !StartsWith(r.value.rest, '-')
    ensures r.Ok? && r.value.rest != SkipSpaces(rest) ==>
              !StartsWith(r.value.rest, '*') && !StartsWith(r.value.rest, '/')
  {
    var u := SkipSpaces(rest);
    if StartsWith(u, '+') then
      match ParseTerm(u[1..])
      case Err(e) => Err(e)
      case Ok(t) =>
        SkipSpacesIdempotent(t.rest);
        ExprTail(Sum(acc, t.value), t.rest)
    else if StartsWith(u, '-') then
      match ParseTerm(u[1..])
      case Err(e) => Err(e)
      case Ok(t) =>
        SkipSpacesIdempotent(t.rest);
        ExprTail(Difference(acc, t.value), t.rest)
    else
      Ok(Parsed(acc, u))
  }

  /** `parse_expression`: a term, then the additive loop. */
  function ParseExpression(s: string): (r: Result<Parsed>)
    decreases |s|, 2
    ensures Shrinks(r, s, true)
    ensures ParseLevelError(r)
    ensures r.Ok? ==> Stripped(r.value.rest)
    ensures r.Ok? ==> !StartsWith(r.value.rest, '+') && !StartsWith(r.value.rest, '-')
    ensures r.Ok? ==> !StartsWith(r.value.rest, '*') && !StartsWith(r.value.rest, '/')
  {
    match ParseTerm(s)
    case Err(e) => Err(e)
    case Ok(t) =>
      SkipSpacesIdempotent(t.rest);
      ExprTail(t.value, t.rest)
  }

  /** `calculate_expression`: parse an expression and insist that only
      whitespace follows it. */
  function Calculate(s: string): (r: Result<real>)
    ensures r.Ok? <==> ParseExpression(s).Ok? && ParseExpression(s).value.rest == []
    ensures r.Ok? ==> r.value == ParseExpression(s).value.value
    ensures ParseExpression(s).Err? ==> r == Err(ParseExpression(s).error)
    ensures ParseExpression(s).Ok? && ParseExpression(s).value.rest != [] ==>
              r == Err(MalformedExpression)
  {
    match ParseExpression(s)
    case Err(e) => Err(e)
    case Ok(p) => if SkipSpaces(p.rest) != [] then Err(MalformedExpression) else Ok(p.value)
  }

  // ---------- one step of each function, on any text

  /** A factor that does not open with '(' is a number. */
  lemma FactorNumber(s: string)
    requires !StartsWith(SkipSpaces(s), '(')
    ensures ParseFactor(s) == ParseNumber(s)
  {
    SkipSpacesIdempotent(s);
  }

  /** After '(' and an inner expression that stops at `after`, the factor
      needs ')' as the next non-blank character: then it yields the inner
      value and the text after the ')'; otherwise it fails with
      CloseParenRequired. */
  lemma FactorClose(s: string, v: real, after: string)
    requires StartsWith(SkipSpaces(s), '(')
    requires ParseExpression(SkipSpaces(s)[1..]) == Ok(Parsed(v, after))
    ensures StartsWith(SkipSpaces(after), ')') ==>
              ParseFactor(s) == Ok(Parsed(v, SkipSpaces(after)[1..]))
    ensures !StartsWith(SkipSpaces(after), ')') ==> ParseFactor(s) == Err(CloseParenRequired)
  {
  }

  /** An inner expression that fails makes the factor fail the same way. */
  lemma FactorInnerError(s: string)
    requires StartsWith(SkipSpaces(s), '(')
    requires ParseExpression(SkipSpaces(s)[1..]).Err?
    ensures ParseFactor(s) == Err(ParseExpression(SkipSpaces(s)[1..]).error)
  {
  }

  /** The multiplicative loop stops when no '*' or '/' comes next. */
  lemma TermTailStop(acc: real, rest: string)
    requires !StartsWith(SkipSpaces(rest), '*') && !StartsWith(SkipSpaces(rest), '/')
    ensures TermTail(acc, rest) == Ok(Parsed(acc, SkipSpaces(rest)))
  {
  }

  /** One round of the multiplicative loop on '*' or '/' followed by a
      factor: fold the factor in (failing on a zero divisor) and go on. */
  lemma TermTailStep(acc: real, rest: string, f: Parsed)
    requires StartsWith(SkipSpaces(rest), '*') || StartsWith(SkipSpaces(rest), '/')
    requires ParseFactor(SkipSpaces(rest)[1..]) == Ok(f)
    ensures StartsWith(SkipSpaces(rest), '*') ==> TermTail(acc, rest) == TermTail(Product(acc, f.value), f.rest)
    ensures StartsWith(SkipSpaces(rest), '/') && f.value == 0.0 ==> TermTail(acc, rest) == Err(DivisionByZero)
    ensures StartsWith(SkipSpaces(rest), '/') && f.value != 0.0 ==>
              TermTail(acc, rest) == TermTail(acc / f.value, f.rest)
  {
  }

  /** A factor after '*' or '/' that fails stops the loop with its error. */
  lemma TermTailError(acc: real, rest: string)
    requires StartsWith(SkipSpaces(rest), '*') || StartsWith(SkipSpaces(rest), '/')
    requires ParseFactor(SkipSpaces(rest)[1..]).Err?
    ensures TermTail(acc, rest) == Err(ParseFactor(SkipSpaces(rest)[1..]).error)
  {
  }

  /** The additive loop stops when no '+' or '-' comes next. */
  lemma ExprTailStop(acc: real, rest: string)
    requires !StartsWith(SkipSpaces(rest), '+') && !StartsWith(SkipSpaces(rest), '-')
    ensures ExprTail(acc, rest) == Ok(Parsed(acc, SkipSpaces(rest)))
  {
  }

  /** One round of the additive loop on '+' or '-' followed by a term. */
  lemma ExprTailStep(acc: real, rest: string, t: Parsed)
    requires StartsWith(SkipSpaces(rest), '+') || StartsWith(SkipSpaces(rest), '-')
    requires ParseTerm(SkipSpaces(rest)[1..]) == Ok(t)
    ensures StartsWith(SkipSpaces(rest), '+') ==> ExprTail(acc, rest) == ExprTail(Sum(acc, t.value), t.rest)
    ensures StartsWith(SkipSpaces(rest), '-') ==> ExprTail(acc, rest) == ExprTail(Difference(acc, t.value), t.rest)
  {
  }

  /** A term after '+' or '-' that fails stops the loop with its error. */
  lemma ExprTailError(acc: real, rest: string)
    requires StartsWith(SkipSpaces(rest), '+') || StartsWith(SkipSpaces(rest), '-')
    requires ParseTerm(SkipSpaces(rest)[1..]).Err?
    ensures ExprTail(acc, rest) == Err(ParseTerm(SkipSpaces(rest)[1..]).error)
  {
  }

  /** A term is its first factor followed by the multiplicative loop. */
  lemma TermSplit(s: string)
    ensures ParseFactor(s).Err? ==> ParseTerm(s) == Err(ParseFactor(s).error)
    ensures ParseFactor(s).Ok? ==>
              ParseTerm(s) == TermTail(ParseFactor(s).value.value, ParseFactor(s).value.rest)
  {
  }

  /** An expression is its first term followed by the additive loop. */
  lemma ExpressionSplit(s: string)
    ensures ParseTerm(s).Err? ==> ParseExpression(s) == Err(ParseTerm(s).error)
    ensures ParseTerm(s).Ok? ==>
              ParseExpression(s) == ExprTail(ParseTerm(s).value.value, ParseTerm(s).value.rest)
  {
  }

  /** Text whose next non-blank character can start no operand: it is
      blank, or that character is neither a digit nor '('. */
  predicate NoOperand(x: string) {
    SkipSpaces(x) == [] || (!IsDigit(SkipSpaces(x)[0]) && SkipSpaces(x)[0] != '(')
  }

  /** A factor, and so a term, cannot start where no operand starts: both
      fail because a number is required. */
  lemma OperandMissing(x: string)
    requires NoOperand(x)
    ensures ParseFactor(x) == Err(NumberRequired)
    ensures ParseTerm(x) == Err(NumberRequired)
  {
    FactorNumber(x);
    TermSplit(x);
  }

  /** A '*' or '/' with no operand after it ends the multiplicative loop
      because a number is required. */
  lemma TermTailOperandMissing(acc: real, rest: string)
    requires StartsWith(SkipSpaces(rest), '*') || StartsWith(SkipSpaces(rest), '/')
    requires NoOperand(SkipSpaces(rest)[1..])
    ensures TermTail(acc, rest) == Err(NumberRequired)
  {
    OperandMissing(SkipSpaces(rest)[1..]);
    TermTailError(acc, rest);
  }

  /** A '+' or '-' with no operand after it ends the additive loop because
      a number is required. */
  lemma ExprTailOperandMissing(acc: real, rest: string)
    requires StartsWith(SkipSpaces(rest), '+') || StartsWith(SkipSpaces(rest), '-')
    requires NoOperand(SkipSpaces(rest)[1..])
    ensures ExprTail(acc, rest) == Err(NumberRequired)
  {
    OperandMissing(SkipSpaces(rest)[1..]);
    ExprTailError(acc, rest);
  }

  // ---------- every remainder is a suffix of the input

  /** Skipping blanks and one token character of `s`, then consuming to
      `x`, leaves a suffix of `s`. */
  lemma AfterToken(s: string, x: string)
    requires SkipSpaces(s) != [] && IsSuffix(x, SkipSpaces(s)[1..])
    ensures IsSuffix(x, s)
  {
    var u := SkipSpaces(s);
    SkipSpacesDrops(s);
    DropFirst(u);
    SuffixTransitive(x, u[1..], u);
    SuffixTransitive(x, u, s);
  }

  lemma {:induction false} FactorSuffix(s: string)
    ensures KeepsSuffix(ParseFactor(s), s)
    decreases |s|, 0
  {
    var t := SkipSpaces(s);
    if StartsWith(t, '(') {
      ExpressionSuffix(t[1..]);
      match ParseExpression(t[1..])
      case Err(_) =>
        FactorInnerError(s);
      case Ok(p) =>
        FactorClose(s, p.value, p.rest);
        var u := SkipSpaces(p.rest);
        if StartsWith(u, ')') {
          SkipSpacesDrops(p.rest);
          DropFirst(u);
          SuffixTransitive(u[1..], u, p.rest);
          SuffixTransitive(u[1..], p.rest, t[1..]);
          AfterToken(s, u[1..]);
        }
    } else {
      FactorNumber(s);
      ParseNumberSuffix(s);
    }
  }

  lemma {:induction false} TermTailSuffix(acc: real, rest: string)
    ensures KeepsSuffix(TermTail(acc, rest), rest)
    decreases |rest|, 0
  {
    var u := SkipSpaces(rest);
    if StartsWith(u, '*') || StartsWith(u, '/') {
      FactorSuffix(u[1..]);
      match ParseFactor(u[1..])
      case Err(_) =>
        TermTailError(acc, rest);
      case Ok(f) =>
        TermTailStep(acc, rest, f);
        AfterToken(rest, f.rest);
        if u[0] == '*' {
          TermTailSuffix(Product(acc, f.value), f.rest);
          if TermTail(acc, rest).Ok? {
            SuffixTransitive(TermTail(acc, rest).value.rest, f.rest, rest);
          }
        } else if f.value != 0.0 {
          TermTailSuffix(acc / f.value, f.rest);
          if TermTail(acc, rest).Ok? {
            SuffixTransitive(TermTail(acc, rest).value.rest, f.rest, rest);
          }
        }
    } else {
      TermTailStop(acc, rest);
      SkipSpacesDrops(rest);
    }
  }

  lemma {:induction false} TermSuffix(s: string)
    ensures KeepsSuffix(ParseTerm(s), s)
    decreases |s|, 1
  {
    TermSplit(s);
    FactorSuffix(s);
    match ParseFactor(s)
    case Err(_) =>
    case Ok(f) =>
      TermTailSuffix(f.value, f.rest);
      if ParseTerm(s).Ok? {
        SuffixTransitive(ParseTerm(s).value.rest, f.rest, s);
      }
  }

  lemma {:induction false} ExprTailSuffix(acc: real, rest: string)
    ensures KeepsSuffix(ExprTail(acc, rest), rest)
    decreases |rest|, 0
  {
    var u := SkipSpaces(rest);
    if StartsWith(u, '+') || StartsWith(u, '-') {
      TermSuffix(u[1..]);
      match ParseTerm(u[1..])
      case Err(_) =>
        ExprTailError(acc, rest);
      case Ok(t) =>
        ExprTailStep(acc, rest, t);
        AfterToken(rest, t.rest);
        var acc' := if u[0] == '+' then Sum(acc, t.value) else Difference(acc, t.value);
        ExprTailSuffix(acc', t.rest);
        if ExprTail(acc, rest).Ok? {
          SuffixTransitive(ExprTail(acc, rest).value.rest, t.rest, rest);
        }
    } else {
      ExprTailStop(acc, rest);
      SkipSpacesDrops(rest);
    }
  }

  /** On success, parse_expression's remainder is a suffix of its input,
      and (by its contract) a strictly shorter one. */
  lemma {:induction false} ExpressionSuffix(s: string)
    ensures KeepsSuffix(ParseExpression(s), s)
    decreases |s|, 2
  {
    ExpressionSplit(s);
    TermSuffix(s);
    match ParseTerm(s)
    case Err(_) =>
    case Ok(t) =>
      ExprTailSuffix(t.value, t.rest);
      if ParseExpression(s).Ok? {
        SuffixTransitive(ParseExpression(s).value.rest, t.rest, s);
      }
  }
}
