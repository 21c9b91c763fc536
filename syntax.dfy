/** The grammar the call structure of app.py:31-63 implements, as syntax
    trees:

      expression := term (('+' | '-') term)*
      term       := factor (('*' | '/') factor)*
      factor     := '(' expression ')' | number

    with whitespace allowed before every token. A tree prints to its text
    and has a value: each level folds its operands from the left, and an
    expression's operands are terms, a term's are factors. The theorems
    below say the parser reads every printed tree back to that value, so
    the parser gives '*' and '/' precedence over '+' and '-' and makes all
    four left-associative. */
module Syntax {
  import opened Results
  import opened Text
  import opened Numbers
  import opened Grammar

  datatype MulOp = Times | Over
  datatype AddOp = Plus | Minus

  /** A factor with the whitespace before its tokens. */
  datatype Factor =
    | Number(ws: string, literal: Numeral)
    | Group(ws: string, inner: Expr, wsClose: string)

  datatype Term = Term(head: Factor, tail: MulTail)
  datatype MulTail = MulEnd | MulStep(ws: string, op: MulOp, operand: Factor, next: MulTail)

  datatype Expr = Expr(head: Term, tail: AddTail)
  datatype AddTail = AddEnd | AddStep(ws: string, op: AddOp, operand: Term, next: AddTail)

  // ---------- well-formedness: literals are literals, padding is blank

  predicate WfFactor(f: Factor)
    decreases f
  {
    match f
    case Number(ws, n) => AllSpaces(ws) && WellFormed(n)
    case Group(ws, e, wsClose) => AllSpaces(ws) && WfExpr(e) && AllSpaces(wsClose)
  }

  predicate WfTerm(t: Term)
    decreases t
  {
    WfFactor(t.head) && WfMulTail(t.tail)
  }

  predicate WfMulTail(m: MulTail)
    decreases m
  {
    match m
    case MulEnd => true
    case MulStep(ws, _, f, next) => AllSpaces(ws) && WfFactor(f) && WfMulTail(next)
  }

  predicate WfExpr(e: Expr)
    decreases e
  {
    WfTerm(e.head) && WfAddTail(e.tail)
  }

  predicate WfAddTail(a: AddTail)
    decreases a
  {
    match a
    case AddEnd => true
    case AddStep(ws, _, t, next) => AllSpaces(ws) && WfTerm(t) && WfAddTail(next)
  }

  // ---------- printing

  function MulChar(op: MulOp): char {
    if op == Times then '*' else '/'
  }

  function AddChar(op: AddOp): char {
    if op == Plus then '+' else '-'
  }

  function PrintFactor(f: Factor): string
    decreases f
  {
    match f
    case Number(ws, n) => ws + Spell(n)
    case Group(ws, e, wsClose) => ws + "(" + PrintExpr(e) + wsClose + ")"
  }

  function PrintTerm(t: Term): string
    decreases t
  {
    PrintFactor(t.head) + PrintMulTail(t.tail)
  }

  function PrintMulTail(m: MulTail): string
    decreases m
  {
    match m
    case MulEnd => ""
    case MulStep(ws, op, f, next) => ws + [MulChar(op)] + PrintFactor(f) + PrintMulTail(next)
  }

  function PrintExpr(e: Expr): string
    decreases e
  {
    PrintTerm(e.head) + PrintAddTail(e.tail)
  }

  function PrintAddTail(a: AddTail): string
    decreases a
  {
    match a
    case AddEnd => ""
    case AddStep(ws, op, t, next) => ws + [AddChar(op)] + PrintTerm(t) + PrintAddTail(next)
  }

  // ---------- meaning: left folds, failing on a zero divisor

  function ApplyMul(acc: real, op: MulOp, v: real): Result<real> {
    if op == Times then Ok(Product(acc, v))
    else if v == 0.0 then Err(DivisionByZero)
    else Ok(acc / v)
  }

  function ApplyAdd(acc: real, op: AddOp, v: real): real {
    if op == Plus then Sum(acc, v) else Difference(acc, v)
  }

  function EvalFactor(f: Factor): Result<real>
    requires WfFactor(f)
    decreases f
  {
    match f
    case Number(_, n) => Ok(Value(n))
    case Group(_, e, _) => EvalExpr(e)
  }

  function EvalTerm(t: Term): Result<real>
    requires WfTerm(t)
    decreases t
  {
    match EvalFactor(t.head)
    case Err(e) => Err(e)
    case Ok(v) => EvalMulTail(v, t.tail)
  }

  /** `acc` op1 f1 op2 f2 ..., grouped from the left. */
  function EvalMulTail(acc: real, m: MulTail): Result<real>
    requires WfMulTail(m)
    decreases m
  {
    match m
    case MulEnd => Ok(acc)
    case MulStep(_, op, f, next) =>
      match EvalFactor(f)
      case Err(e) => Err(e)
      case Ok(v) =>
        match ApplyMul(acc, op, v)
        case Err(e) => Err(e)
        case Ok(acc') => EvalMulTail(acc', next)
  }

  function EvalExpr(e: Expr): Result<real>
    requires WfExpr(e)
    decreases e
  {
    match EvalTerm(e.head)
    case Err(err) => Err(err)
    case Ok(v) => EvalAddTail(v, e.tail)
  }

  /** `acc` op1 t1 op2 t2 ..., grouped from the left. */
  function EvalAddTail(acc: real, a: AddTail): Result<real>
    requires WfAddTail(a)
    decreases a
  {
    match a
    case AddEnd => Ok(acc)
    case AddStep(_, op, t, next) =>
      match EvalTerm(t)
      case Err(e) => Err(e)
      case Ok(v) => EvalAddTail(ApplyAdd(acc, op, v), next)
  }

  // ---------- reading printed trees back

  /** A parse answer for the outcome `v` of an evaluation, leaving `rest`. */
  function Answer(v: Result<real>, rest: string): Result<Parsed> {
    match v
    case Ok(x) => Ok(Parsed(x, rest))
    case Err(e) => Err(e)
  }

  /** Text that cannot continue a literal printed before it. */
  predicate Boundary(rest: string) {
    rest == [] || (!IsDigit(rest[0]) && rest[0] != '.')
  }

  /** Text whose next token is not a multiplicative operator. */
  predicate NoMulOp(rest: string) {
    !StartsWith(SkipSpaces(rest), '*') && !StartsWith(SkipSpaces(rest), '/')
  }

  /** Text whose next token is no operator at all. */
  predicate NoOp(rest: string) {
    NoMulOp(rest) && !StartsWith(SkipSpaces(rest), '+') && !StartsWith(SkipSpaces(rest), '-')
  }

  /** Blank padding, then the character `c`, then anything: the padding
      is skipped and what follows the character is `x`. */
  lemma TokenAfter(ws: string, c: char, x: string)
    requires AllSpaces(ws) && !IsSpace(c)
    ensures SkipSpaces(ws + [c] + x) == [c] + x
    ensures (ws + [c] + x)[0] == if ws == [] then c else ws[0]
    ensures ([c] + x)[1..] == x
  {
    assert ws + [c] + x == ws + ([c] + x);
    SkipSpacesOf(ws, [c] + x);
  }

  /** Padding then an operator or parenthesis cannot continue a literal. */
  lemma TokenBoundary(ws: string, c: char, x: string)
    requires AllSpaces(ws) && !IsSpace(c) && !IsDigit(c) && c != '.'
    ensures Boundary(ws + [c] + x)
  {
    TokenAfter(ws, c, x);
  }

  lemma MulTailBoundary(m: MulTail, rest: string)
    requires WfMulTail(m) && Boundary(rest)
    ensures Boundary(PrintMulTail(m) + rest)
  {
    if m.MulStep? {
      var x := PrintFactor(m.operand) + PrintMulTail(m.next) + rest;
      Regroup(m.ws + [MulChar(m.op)], PrintFactor(m.operand), PrintMulTail(m.next), rest);
      TokenBoundary(m.ws, MulChar(m.op), x);
    }
  }

  lemma AddTailBoundary(a: AddTail, rest: string)
    requires WfAddTail(a) && Boundary(rest)
    ensures Boundary(PrintAddTail(a) + rest)
    ensures a.AddStep? ==> NoMulOp(PrintAddTail(a) + rest)
  {
    if a.AddStep? {
      var x := PrintTerm(a.operand) + PrintAddTail(a.next) + rest;
      Regroup(a.ws + [AddChar(a.op)], PrintTerm(a.operand), PrintAddTail(a.next), rest);
      TokenBoundary(a.ws, AddChar(a.op), x);
      TokenAfter(a.ws, AddChar(a.op), x);
    }
  }

  /** ExprTail strips the text before looking at it. */
  lemma ExprTailStrips(acc: real, x: string)
    ensures ExprTail(acc, SkipSpaces(x)) == ExprTail(acc, x)
  {
    SkipSpacesIdempotent(x);
  }

  /** A padded literal followed by text that cannot extend it is a
      factor whose value is the literal's. */
  lemma NumberRead(ws: string, n: Numeral, rest: string)
    requires AllSpaces(ws) && WellFormed(n) && !Extends(n, rest)
    ensures ParseFactor(ws + Spell(n) + rest) == Ok(Parsed(Value(n), rest))
  {
    var s := ws + Spell(n) + rest;
    var t := Spell(n) + rest;
    ScanNumeralSpell(n, rest);
    assert s == ws + t;
    SkipSpacesOf(ws, t);
    FactorNumber(s);
    ParseNumberSpell(ws, n, rest);
  }

  /** A parenthesised expression is a factor with the inner value, once
      the inner expression reads back (ExprRead). */
  lemma GroupRead(ws: string, e: Expr, wsClose: string, rest: string)
    requires AllSpaces(ws) && WfExpr(e) && AllSpaces(wsClose)
    requires ParseExpression(PrintExpr(e) + (wsClose + [')'] + rest))
               == Answer(EvalExpr(e), SkipSpaces(wsClose + [')'] + rest))
    ensures ParseFactor(ws + "(" + PrintExpr(e) + wsClose + ")" + rest) == Answer(EvalExpr(e), rest)
  {
    var after := wsClose + [')'] + rest;
    var x := PrintExpr(e) + after;
    var s := ws + "(" + PrintExpr(e) + wsClose + ")" + rest;
    GroupText(ws, PrintExpr(e), wsClose, rest);
    TokenAfter(ws, '(', x);
    TokenAfter(wsClose, ')', rest);
    match EvalExpr(e)
    case Err(_) =>
      FactorInnerError(s);
    case Ok(v) =>
      SkipSpacesIdempotent(after);
      FactorClose(s, v, [')'] + rest);
  }

  /** A printed factor parses to its value, leaving exactly what follows.
      A group ends with ')', so any text may follow it; a literal needs
      only text that cannot extend it. */
  lemma {:induction false} FactorRead(f: Factor, rest: string)
    requires WfFactor(f) && (f.Number? ==> !Extends(f.literal, rest))
    ensures ParseFactor(PrintFactor(f) + rest) == Answer(EvalFactor(f), rest)
    decreases f, 1
  {
    match f
    case Number(ws, n) =>
      NumberRead(ws, n, rest);
    case Group(ws, e, wsClose) =>
      TokenBoundary(wsClose, ')', rest);
      TokenAfter(wsClose, ')', rest);
      ExprRead(e, wsClose + [')'] + rest);
      GroupRead(ws, e, wsClose, rest);
  }

  /** One multiplicative step: padding, the operator, then a factor that
      reads back, folded into the accumulator. */
  lemma MulStepRead(acc: real, ws: string, op: MulOp, f: Factor, after: string)
    requires AllSpaces(ws) && WfFactor(f)
    requires ParseFactor(PrintFactor(f) + after) == Answer(EvalFactor(f), after)
    ensures var s := ws + [MulChar(op)] + (PrintFactor(f) + after);
      && (EvalFactor(f).Err? ==> TermTail(acc, s) == Err(EvalFactor(f).error))
      && (EvalFactor(f).Ok? ==>
            var step := ApplyMul(acc, op, EvalFactor(f).value);
            && (step.Err? ==> TermTail(acc, s) == Err(step.error))
            && (step.Ok? ==> TermTail(acc, s) == TermTail(step.value, after)))
  {
    var x := PrintFactor(f) + after;
    var s := ws + [MulChar(op)] + x;
    TokenAfter(ws, MulChar(op), x);
    match EvalFactor(f)
    case Err(_) =>
      TermTailError(acc, s);
    case Ok(v) =>
      TermTailStep(acc, s, Parsed(v, after));
  }

  /** One additive step: padding, the operator, then a term that reads
      back, folded into the accumulator. */
  lemma AddStepRead(acc: real, ws: string, op: AddOp, t: Term, after: string)
    requires AllSpaces(ws) && WfTerm(t)
    requires ParseTerm(PrintTerm(t) + after) == Answer(EvalTerm(t), SkipSpaces(after))
    ensures var s := ws + [AddChar(op)] + (PrintTerm(t) + after);
      && (EvalTerm(t).Err? ==> ExprTail(acc, s) == Err(EvalTerm(t).error))
      && (EvalTerm(t).Ok? ==> ExprTail(acc, s) == ExprTail(ApplyAdd(acc, op, EvalTerm(t).value), after))
  {
    var x := PrintTerm(t) + after;
    var s := ws + [AddChar(op)] + x;
    TokenAfter(ws, AddChar(op), x);
    match EvalTerm(t)
    case Err(_) =>
      ExprTailError(acc, s);
    case Ok(v) =>
      ExprTailStep(acc, s, Parsed(v, SkipSpaces(after)));
      ExprTailStrips(ApplyAdd(acc, op, v), after);
  }

  /** A printed term parses to its value; the parser also consumes the
      blanks after it. */
  lemma {:induction false} TermRead(t: Term, rest: string)
    requires WfTerm(t) && Boundary(rest) && NoMulOp(rest)
    ensures ParseTerm(PrintTerm(t) + rest) == Answer(EvalTerm(t), SkipSpaces(rest))
    decreases t, 2
  {
    var after := PrintMulTail(t.tail) + rest;
    var s := PrintFactor(t.head) + after;
    assert PrintTerm(t) + rest == s;
    MulTailBoundary(t.tail, rest);
    FactorRead(t.head, after);
    TermSplit(s);
    match EvalFactor(t.head)
    case Err(_) =>
    case Ok(v) => MulTailRead(v, t.tail, rest);
  }

  lemma {:induction false} MulTailRead(acc: real, m: MulTail, rest: string)
    requires WfMulTail(m) && Boundary(rest) && NoMulOp(rest)
    ensures TermTail(acc, PrintMulTail(m) + rest) == Answer(EvalMulTail(acc, m), SkipSpaces(rest))
    decreases m, 0
  {
    var s := PrintMulTail(m) + rest;
    match m
    case MulEnd =>
      assert s == rest;
      TermTailStop(acc, rest);
    case MulStep(ws, op, f, next) =>
      var after := PrintMulTail(next) + rest;
      Regroup(ws + [MulChar(op)], PrintFactor(f), PrintMulTail(next), rest);
      MulTailBoundary(next, rest);
      FactorRead(f, after);
      MulStepRead(acc, ws, op, f, after);
      match EvalFactor(f)
      case Err(_) =>
      case Ok(v) =>
        match ApplyMul(acc, op, v)
        case Err(_) =>
        case Ok(acc') => MulTailRead(acc', next, rest);
  }

  /** A printed expression parses to its value; the parser also consumes
      the blanks after it. */
  lemma {:induction false} ExprRead(e: Expr, rest: string)
    requires WfExpr(e) && Boundary(rest) && NoOp(rest)
    ensures ParseExpression(PrintExpr(e) + rest) == Answer(EvalExpr(e), SkipSpaces(rest))
    decreases e, 2
  {
    var after := PrintAddTail(e.tail) + rest;
    var s := PrintTerm(e.head) + after;
    assert PrintExpr(e) + rest == s;
    AddTailBoundary(e.tail, rest);
    if e.tail.AddEnd? {
      assert after == rest;
    }
    TermRead(e.head, after);
    ExpressionSplit(s);
    match EvalTerm(e.head)
    case Err(_) =>
    case Ok(v) =>
      ExprTailStrips(v, after);
      AddTailRead(v, e.tail, rest);
  }

  lemma {:induction false} AddTailRead(acc: real, a: AddTail, rest: string)
    requires WfAddTail(a) && Boundary(rest) && NoOp(rest)
    ensures ExprTail(acc, PrintAddTail(a) + rest) == Answer(EvalAddTail(acc, a), SkipSpaces(rest))
    decreases a, 0
  {
    var s := PrintAddTail(a) + rest;
    match a
    case AddEnd =>
      assert s == rest;
      ExprTailStop(acc, rest);
    case AddStep(ws, op, t, next) =>
      var after := PrintAddTail(next) + rest;
      Regroup(ws + [AddChar(op)], PrintTerm(t), PrintAddTail(next), rest);
      AddTailBoundary(next, rest);
      if next.AddEnd? {
        assert after == rest;
      }
      TermRead(t, after);
      AddStepRead(acc, ws, op, t, after);
      match EvalTerm(t)
      case Err(_) =>
      case Ok(v) => AddTailRead(ApplyAdd(acc, op, v), next, rest);
  }

  /** `calculate_expression` on a printed expression, with any trailing
      whitespace, gives exactly the expression's value (or the division
      by zero that evaluating it runs into). */
  lemma CalculatePrinted(e: Expr, trailing: string)
    requires WfExpr(e) && AllSpaces(trailing)
    ensures Calculate(PrintExpr(e) + trailing) == EvalExpr(e)
  {
    SkipSpacesOf(trailing, []);
    assert trailing + [] == trailing;
    ExprRead(e, trailing);
  }

  // ---------- inputs that are rejected

  /** Text whose first non-blank character is neither a digit nor '('
      (including blank text, and a leading '-': there is no unary minus)
      is rejected because a number is required there. */
  lemma OperandRequired(s: string)
    requires NoOperand(s)
    ensures Calculate(s) == Err(NumberRequired)
  {
    OperandMissing(s);
    ExpressionSplit(s);
  }

  /** An operator with no operand after it is rejected because a number
      is required there: a factor, blanks, one of the four operators, then
      text whose next non-blank character is neither a digit nor '('. */
  lemma OperatorWithoutOperand(f: Factor, ws: string, c: char, rest: string)
    requires WfFactor(f) && EvalFactor(f).Ok? && AllSpaces(ws)
    requires c == '*' || c == '/' || c == '+' || c == '-'
    requires NoOperand(rest)
    ensures Calculate(PrintFactor(f) + ws + [c] + rest) == Err(NumberRequired)
  {
    var x := ws + [c] + rest;
    var s := PrintFactor(f) + x;
    assert PrintFactor(f) + ws + [c] + rest == s;
    TokenBoundary(ws, c, rest);
    TokenAfter(ws, c, rest);
    FactorRead(f, x);
    TermSplit(s);
    var v := EvalFactor(f).value;
    if c == '*' || c == '/' {
      TermTailOperandMissing(v, x);
    } else {
      TermTailStop(v, x);
      SkipSpacesIdempotent(x);
      ExprTailOperandMissing(v, SkipSpaces(x));
    }
    ExpressionSplit(s);
  }

  /** A group whose ')' never comes is rejected, however well formed the
      expression inside it is: once the inner expression stops, whatever
      comes next (the end of the text, or anything that is not an operator
      and cannot continue its last literal) is not ')'. */
  lemma UnclosedGroup(ws: string, e: Expr, rest: string)
    requires AllSpaces(ws) && WfExpr(e) && EvalExpr(e).Ok?
    requires Boundary(rest) && NoOp(rest) && !StartsWith(SkipSpaces(rest), ')')
    ensures Calculate(ws + "(" + PrintExpr(e) + rest) == Err(CloseParenRequired)
  {
    var x := PrintExpr(e) + rest;
    var s := ws + "(" + PrintExpr(e) + rest;
    assert s == ws + ['('] + x;
    TokenAfter(ws, '(', x);
    ExprRead(e, rest);
    SkipSpacesIdempotent(rest);
    FactorClose(s, EvalExpr(e).value, SkipSpaces(rest));
    TermSplit(s);
    ExpressionSplit(s);
  }

  /** A complete expression followed by text that neither continues its
      last literal nor is an operator nor blank is rejected as malformed,
      even when it would evaluate on its own. */
  lemma TrailingText(e: Expr, rest: string)
    requires WfExpr(e) && EvalExpr(e).Ok?
    requires Boundary(rest) && NoOp(rest) && SkipSpaces(rest) != []
    ensures Calculate(PrintExpr(e) + rest) == Err(MalformedExpression)
  {
    ExprRead(e, rest);
    SkipSpacesIdempotent(rest);
  }
}
