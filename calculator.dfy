/** The parser as the program runs it: `parse_term` and `parse_expression`
    are `while True` loops that reassign `val` and `rest`, and the three
    parse procedures call one another recursively. Each method is proved
    to compute exactly its specification function in Grammar; a raised
    ValueError or ZeroDivisionError is an `Err` result. */
module Calculator {
  import opened Results
  import opened Text
  import opened Numbers
  import G = Grammar

  /** `parse_factor`: a parenthesised expression, or a number. */
  method ParseFactor(s: string) returns (r: Result<Parsed>)
    decreases |s|, 0
    ensures r == G.ParseFactor(s)
  {
    var expr := SkipSpaces(s);
    if G.StartsWith(expr, '(') {
      var inner := ParseExpression(expr[1..]);
      if inner.Err? {
        G.FactorInnerError(s);
        return Err(inner.error);
      }
      var rest := SkipSpaces(inner.value.rest);
      G.FactorClose(s, inner.value.value, inner.value.rest);
      if !G.StartsWith(rest, ')') {
        return Err(CloseParenRequired);
      }
      return Ok(Parsed(inner.value.value, rest[1..]));
    }
    G.FactorNumber(s);
    r := ParseNumber(expr);
  }

  /** `parse_term`: a factor, then a loop that folds in each further
      factor after '*' or '/'. */
  method ParseTerm(s: string) returns (r: Result<Parsed>)
    decreases |s|, 1
    ensures r == G.ParseTerm(s)
  {
    var first := ParseFactor(s);
    G.TermSplit(s);
    if first.Err? {
      return Err(first.error);
    }
    var val := first.value.value;
    var rest := first.value.rest;
    while true
      invariant |rest| < |s|
      invariant G.TermTail(val, rest) == G.ParseTerm(s)
      decreases |rest|
    {
      ghost var before := rest;
      rest := SkipSpaces(rest);
      if G.StartsWith(rest, '*') {
        var next := ParseFactor(rest[1..]);
        if next.Err? {
          G.TermTailError(val, before);
          return Err(next.error);
        }
        G.TermTailStep(val, before, next.value);
        val, rest := Product(val, next.value.value), next.value.rest;
      } else if G.StartsWith(rest, '/') {
        var next := ParseFactor(rest[1..]);
        if next.Err? {
          G.TermTailError(val, before);
          return Err(next.error);
        }
        G.TermTailStep(val, before, next.value);
        if next.value.value == 0.0 {
          return Err(DivisionByZero);
        }
        val, rest := val / next.value.value, next.value.rest;
      } else {
        G.TermTailStop(val, before);
        break;
      }
    }
    return Ok(Parsed(val, rest));
  }

  /** `parse_expression`: a term, then a loop that folds in each further
      term after '+' or '-'. */
  method ParseExpression(s: string) returns (r: Result<Parsed>)
    decreases |s|, 2
    ensures r == G.ParseExpression(s)
  {
    var first := ParseTerm(s);
    G.ExpressionSplit(s);
    if first.Err? {
      return Err(first.error);
    }
    var val := first.value.value;
    var rest := first.value.rest;
    while true
      invariant |rest| < |s|
      invariant G.ExprTail(val, rest) == G.ParseExpression(s)
      decreases |rest|
    {
      ghost var before := rest;
      rest := SkipSpaces(rest);
      if G.StartsWith(rest, '+') {
        var next := ParseTerm(rest[1..]);
        if next.Err? {
          G.ExprTailError(val, before);
          return Err(next.error);
        }
        G.ExprTailStep(val, before, next.value);
        val, rest := Sum(val, next.value.value), next.value.rest;
      } else if G.StartsWith(rest, '-') {
        var next := ParseTerm(rest[1..]);
        if next.Err? {
          G.ExprTailError(val, before);
          return Err(next.error);
        }
        G.ExprTailStep(val, before, next.value);
        val, rest := Difference(val, next.value.value), next.value.rest;
      } else {
        G.ExprTailStop(val, before);
        break;
      }
    }
    return Ok(Parsed(val, rest));
  }

  /** `calculate_expression`: the value of the whole text, which must hold
      one expression and nothing but blanks after it. */
  method CalculateExpression(s: string) returns (r: Result<real>)
    ensures r == G.Calculate(s)
  {
    var parsed := ParseExpression(s);
    if parsed.Err? {
      return Err(parsed.error);
    }
    if SkipSpaces(parsed.value.rest) != [] {
      return Err(MalformedExpression);
    }
    return Ok(parsed.value.value);
  }
}
