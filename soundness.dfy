/** The converse of the read-back theorem (Syntax.CalculatePrinted): every
    text that `calculate_expression` accepts is the printing of a
    well-formed tree followed by blanks, and the result is the tree's
    value. Each lemma recognises the tree that one parse level read. */
module Soundness {
  import opened Results
  import opened Text
  import opened Numbers
  import opened Grammar
  import opened Syntax

  /** Blanks followed by the rest a term left: the same additive loop. */
  lemma AfterTerm(acc: real, pad: string, rest: string)
    requires AllSpaces(pad) && Stripped(rest)
    ensures ExprTail(acc, pad + rest) == ExprTail(acc, rest)
  {
    SkipSpacesOf(pad, rest);
    SkipSpacesOf([], rest);
    assert [] + rest == rest;
    ExprTailStrips(acc, pad + rest);
    ExprTailStrips(acc, rest);
  }

  // ---------- one lemma per parse level

  lemma {:induction false} FactorSound(s: string) returns (f: Factor)
    requires ParseFactor(s).Ok?
    ensures WfFactor(f) && EvalFactor(f) == Ok(ParseFactor(s).value.value)
    ensures s == PrintFactor(f) + ParseFactor(s).value.rest
    decreases |s|, 0
  {
    var ws := Blanks(s);
    var t := SkipSpaces(s);
    BlanksThenRest(s);
    if StartsWith(t, '(') {
      assert ParseExpression(t[1..]).Ok?;
      var p := ParseExpression(t[1..]).value;
      var e, pad := ExpressionSound(t[1..]);
      FactorClose(s, p.value, p.rest);
      assert StartsWith(p.rest, ')');
      var r := p.rest[1..];
      Uncons(t);
      Uncons(p.rest);
      RegroupGroup(ws, PrintExpr(e), pad, r);
      f := Group(ws, e, pad);
    } else {
      FactorNumber(s);
      ParseNumberRead(s);
      var n :| WellFormed(n) && t == Spell(n) + ParseNumber(s).value.rest
        && ParseNumber(s).value.value == Value(n) && !Extends(n, ParseNumber(s).value.rest);
      Regroup2(ws, Spell(n), [], ParseNumber(s).value.rest);
      assert ws + Spell(n) + [] == ws + Spell(n);
      assert Spell(n) + [] == Spell(n);
      f := Number(ws, n);
    }
  }

  /** A multiplicative round that succeeds read its factor. */
  lemma TermTailReadsFactor(acc: real, x: string)
    requires StartsWith(SkipSpaces(x), '*') || StartsWith(SkipSpaces(x), '/')
    requires TermTail(acc, x).Ok?
    ensures ParseFactor(SkipSpaces(x)[1..]).Ok?
  {
  }

  /** An additive round that succeeds read its term. */
  lemma ExprTailReadsTerm(acc: real, x: string)
    requires StartsWith(SkipSpaces(x), '+') || StartsWith(SkipSpaces(x), '-')
    requires ExprTail(acc, x).Ok?
    ensures ParseTerm(SkipSpaces(x)[1..]).Ok?
  {
  }

  lemma {:induction false} TermTailSound(acc: real, x: string) returns (m: MulTail, pad: string)
    requires TermTail(acc, x).Ok?
    ensures WfMulTail(m) && AllSpaces(pad)
    ensures EvalMulTail(acc, m) == Ok(TermTail(acc, x).value.value)
    ensures x == PrintMulTail(m) + pad + TermTail(acc, x).value.rest
    decreases |x|, 1
  {
    if StartsWith(SkipSpaces(x), '*') || StartsWith(SkipSpaces(x), '/') {
      m, pad := MulStepSound(acc, x);
    } else {
      TermTailStop(acc, x);
      BlanksThenRest(x);
      m, pad := MulEnd, Blanks(x);
      assert x == PrintMulTail(m) + pad + SkipSpaces(x);
    }
  }

  lemma {:induction false} MulStepSound(acc: real, x: string) returns (m: MulTail, pad: string)
    requires StartsWith(SkipSpaces(x), '*') || StartsWith(SkipSpaces(x), '/')
    requires TermTail(acc, x).Ok?
    ensures WfMulTail(m) && AllSpaces(pad)
    ensures EvalMulTail(acc, m) == Ok(TermTail(acc, x).value.value)
    ensures x == PrintMulTail(m) + pad + TermTail(acc, x).value.rest
    decreases |x|, 0
  {
    var ws := Blanks(x);
    var u := SkipSpaces(x);
    BlanksThenRest(x);
    TermTailReadsFactor(acc, x);
    var F := ParseFactor(u[1..]).value;
    var op := if u[0] == '*' then Times else Over;
    var fa := FactorSound(u[1..]);
    var step := ApplyMul(acc, op, F.value);
    assert step.Ok? && TermTail(acc, x) == TermTail(step.value, F.rest) by {
      TermTailStep(acc, x, F);
    }
    var next;
    next, pad := TermTailSound(step.value, F.rest);
    m := MulStep(ws, op, fa, next);
    StepText(x, ws, u, PrintFactor(fa), F.rest, PrintMulTail(next), pad, TermTail(acc, x).value.rest);
  }

  lemma {:induction false} TermSound(s: string) returns (t: Term, pad: string)
    requires ParseTerm(s).Ok?
    ensures WfTerm(t) && AllSpaces(pad)
    ensures EvalTerm(t) == Ok(ParseTerm(s).value.value)
    ensures s == PrintTerm(t) + (pad + ParseTerm(s).value.rest)
    decreases |s|, 2
  {
    TermSplit(s);
    var F := ParseFactor(s).value;
    var head := FactorSound(s);
    var tail;
    tail, pad := TermTailSound(F.value, F.rest);
    t := Term(head, tail);
    Regroup3(PrintFactor(head), PrintMulTail(tail), pad, ParseTerm(s).value.rest);
  }

  lemma {:induction false} ExprTailSound(acc: real, x: string) returns (a: AddTail, pad: string)
    requires ExprTail(acc, x).Ok?
    ensures WfAddTail(a) && AllSpaces(pad)
    ensures EvalAddTail(acc, a) == Ok(ExprTail(acc, x).value.value)
    ensures x == PrintAddTail(a) + pad + ExprTail(acc, x).value.rest
    decreases |x|, 1
  {
    if StartsWith(SkipSpaces(x), '+') || StartsWith(SkipSpaces(x), '-') {
      a, pad := AddStepSound(acc, x);
    } else {
      ExprTailStop(acc, x);
      BlanksThenRest(x);
      a, pad := AddEnd, Blanks(x);
      assert x == PrintAddTail(a) + pad + SkipSpaces(x);
    }
  }

  lemma {:induction false} AddStepSound(acc: real, x: string) returns (a: AddTail, pad: string)
    requires StartsWith(SkipSpaces(x), '+') || StartsWith(SkipSpaces(x), '-')
    requires ExprTail(acc, x).Ok?
    ensures WfAddTail(a) && AllSpaces(pad)
    ensures EvalAddTail(acc, a) == Ok(ExprTail(acc, x).value.value)
    ensures x == PrintAddTail(a) + pad + ExprTail(acc, x).value.rest
    decreases |x|, 0
  {
    var ws := Blanks(x);
    var u := SkipSpaces(x);
    BlanksThenRest(x);
    ExprTailReadsTerm(acc, x);
    var T := ParseTerm(u[1..]).value;
    var op := if u[0] == '+' then Plus else Minus;
    var th, padT := TermSound(u[1..]);
    var acc' := ApplyAdd(acc, op, T.value);
    assert ExprTail(acc, x) == ExprTail(acc', padT + T.rest) by {
      ExprTailStep(acc, x, T);
      AfterTerm(acc', padT, T.rest);
    }
    var next;
    next, pad := ExprTailSound(acc', padT + T.rest);
    a := AddStep(ws, op, th, next);
    StepText(x, ws, u, PrintTerm(th), padT + T.rest, PrintAddTail(next), pad, ExprTail(acc, x).value.rest);
  }

  /** An expression that succeeds read its first term, and then ran the
      additive loop. */
  lemma ExpressionReadsTerm(s: string)
    requires ParseExpression(s).Ok?
    ensures ParseTerm(s).Ok?
    ensures ParseExpression(s) == ExprTail(ParseTerm(s).value.value, ParseTerm(s).value.rest)
  {
    ExpressionSplit(s);
  }

  lemma {:induction false} ExpressionSound(s: string) returns (e: Expr, pad: string)
    requires ParseExpression(s).Ok?
    ensures WfExpr(e) && AllSpaces(pad)
    ensures EvalExpr(e) == Ok(ParseExpression(s).value.value)
    ensures s == PrintExpr(e) + pad + ParseExpression(s).value.rest
    decreases |s|, 3
  {
    ExpressionReadsTerm(s);
    var T := ParseTerm(s).value;
    var head, padT := TermSound(s);
    assert ParseExpression(s) == ExprTail(T.value, padT + T.rest) by {
      AfterTerm(T.value, padT, T.rest);
    }
    var tail;
    tail, pad := ExprTailSound(T.value, padT + T.rest);
    e := Expr(head, tail);
    Regroup2(PrintTerm(head), PrintAddTail(tail), pad, ParseExpression(s).value.rest);
  }

  /** `calculate_expression` accepts exactly the printings of well-formed
      trees followed by blanks, and returns the tree's value: a text has
      value `v` if and only if some tree whose value is `v` prints as it. */
  lemma CalculateAccepts(s: string, v: real)
    ensures Calculate(s) == Ok(v) <==>
      exists e: Expr, trailing: string :: WfExpr(e) && AllSpaces(trailing)
        && s == PrintExpr(e) + trailing && EvalExpr(e) == Ok(v)
  {
    if Calculate(s) == Ok(v) {
      var e, pad := ExpressionSound(s);
      var rest := ParseExpression(s).value.rest;
      assert rest == [];
      assert s == PrintExpr(e) + pad;
    }
    if exists e: Expr, trailing: string :: WfExpr(e) && AllSpaces(trailing)
        && s == PrintExpr(e) + trailing && EvalExpr(e) == Ok(v) {
      var e: Expr, trailing: string :| WfExpr(e) && AllSpaces(trailing)
        && s == PrintExpr(e) + trailing && EvalExpr(e) == Ok(v);
      CalculatePrinted(e, trailing);
    }
  }
}
