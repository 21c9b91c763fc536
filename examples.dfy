/** Worked inputs for `calculate_expression`. Each follows from a general
    theorem of Syntax applied to a fixed tree: one lemma gives the tree's
    text, one its value, and the example combines them. The input of an
    example is a parameter equal to the text, rather than the literal
    itself, so that the parser's definitions are not unrolled on it. */
module Examples {
  import opened Results
  import opened Text
  import opened Numbers
  import opened Grammar
  import opened Syntax

  /** An unpadded whole-number literal as a factor. */
  function Lit(digits: string): Factor {
    Number("", Numeral(digits, ""))
  }

  /** A term of one factor. */
  function Just(f: Factor): Term {
    Term(f, MulEnd)
  }

  /** The read-back theorem for a tree that prints as `s`. */
  lemma ReadsAs(e: Expr, s: string)
    requires WfExpr(e) && PrintExpr(e) == s
    ensures Calculate(s) == EvalExpr(e)
  {
    assert s + "" == s;
    CalculatePrinted(e, "");
  }

  // ---------- 2+3*4

  function PrecedenceTree(): Expr {
    Expr(Just(Lit("2")), AddStep("", Plus, Term(Lit("3"), MulStep("", Times, Lit("4"), MulEnd)), AddEnd))
  }

  lemma PrecedenceText()
    ensures WfExpr(PrecedenceTree()) && PrintExpr(PrecedenceTree()) == "2+3*4"
  {
  }

  lemma PrecedenceValue()
    ensures WfExpr(PrecedenceTree()) && EvalExpr(PrecedenceTree()) == Ok(14.0)
  {
  }

  /** "2+3*4" is 14: multiplication binds tighter than addition. */
  lemma PrecedenceExample(s: string)
    requires s == "2+3*4"
    ensures Calculate(s) == Ok(14.0)
  {
    PrecedenceText();
    PrecedenceValue();
    ReadsAs(PrecedenceTree(), s);
  }

  // ---------- (2+3)*4

  function SumTree(): Expr {
    Expr(Just(Lit("2")), AddStep("", Plus, Just(Lit("3")), AddEnd))
  }

  lemma SumText()
    ensures WfExpr(SumTree()) && PrintExpr(SumTree()) == "2+3"
  {
  }

  lemma SumValue()
    ensures WfExpr(SumTree()) && EvalExpr(SumTree()) == Ok(5.0)
  {
  }

  function GroupingTree(): Expr {
    Expr(Term(Group("", SumTree(), ""), MulStep("", Times, Lit("4"), MulEnd)), AddEnd)
  }

  lemma GroupingText()
    ensures WfExpr(GroupingTree()) && PrintExpr(GroupingTree()) == "(2+3)*4"
  {
    SumText();
  }

  lemma GroupingValue()
    ensures WfExpr(GroupingTree()) && EvalExpr(GroupingTree()) == Ok(20.0)
  {
    SumValue();
  }

  /** "(2+3)*4" is 20: parentheses group. */
  lemma GroupingExample(s: string)
    requires s == "(2+3)*4"
    ensures Calculate(s) == Ok(20.0)
  {
    GroupingText();
    GroupingValue();
    ReadsAs(GroupingTree(), s);
  }

  // ---------- 8/4/2

  function DivisionTree(): Expr {
    Expr(Term(Lit("8"), MulStep("", Over, Lit("4"), MulStep("", Over, Lit("2"), MulEnd))), AddEnd)
  }

  lemma DivisionText()
    ensures WfExpr(DivisionTree()) && PrintExpr(DivisionTree()) == "8/4/2"
  {
  }

  lemma DivisionValue()
    ensures WfExpr(DivisionTree()) && EvalExpr(DivisionTree()) == Ok(1.0)
  {
    assert 8.0 / 4.0 == 2.0 && 2.0 / 2.0 == 1.0;
  }

  /** "8/4/2" is 1: division groups from the left. */
  lemma DivisionLeftExample(s: string)
    requires s == "8/4/2"
    ensures Calculate(s) == Ok(1.0)
  {
    DivisionText();
    DivisionValue();
    ReadsAs(DivisionTree(), s);
  }

  // ---------- " 10 - 3 - 2 "

  /** A literal padded with one blank in front. */
  function Padded(digits: string): Term {
    Just(Number(" ", Numeral(digits, "")))
  }

  function SubtractionTree(): Expr {
    Expr(Padded("10"), AddStep(" ", Minus, Padded("3"), AddStep(" ", Minus, Padded("2"), AddEnd)))
  }

  lemma SubtractionText()
    ensures WfExpr(SubtractionTree()) && PrintExpr(SubtractionTree()) + " " == " 10 - 3 - 2 "
  {
  }

  lemma SubtractionValue()
    ensures WfExpr(SubtractionTree()) && EvalExpr(SubtractionTree()) == Ok(5.0)
  {
  }

  /** " 10 - 3 - 2 " is 5: subtraction groups from the left, and blanks
      around tokens and at the end are skipped. */
  lemma SubtractionLeftExample(s: string)
    requires s == " 10 - 3 - 2 "
    ensures Calculate(s) == Ok(5.0)
  {
    SubtractionText();
    SubtractionValue();
    assert AllSpaces(" ");
    CalculatePrinted(SubtractionTree(), " ");
  }

  // ---------- 1.5*2

  function DecimalTree(): Expr {
    Expr(Term(Number("", Numeral("1", "5")), MulStep("", Times, Lit("2"), MulEnd)), AddEnd)
  }

  lemma DecimalText()
    ensures WfExpr(DecimalTree()) && PrintExpr(DecimalTree()) == "1.5*2"
  {
  }

  lemma DecimalValue()
    ensures WfExpr(DecimalTree()) && EvalExpr(DecimalTree()) == Ok(3.0)
  {
  }

  /** "1.5*2" is 3: a fraction part is read exactly. */
  lemma DecimalExample(s: string)
    requires s == "1.5*2"
    ensures Calculate(s) == Ok(3.0)
  {
    DecimalText();
    DecimalValue();
    ReadsAs(DecimalTree(), s);
  }

  // ---------- 1/0

  function ZeroDivisorTree(): Expr {
    Expr(Term(Lit("1"), MulStep("", Over, Lit("0"), MulEnd)), AddEnd)
  }

  lemma ZeroDivisorText()
    ensures WfExpr(ZeroDivisorTree()) && PrintExpr(ZeroDivisorTree()) == "1/0"
  {
  }

  lemma ZeroDivisorValue()
    ensures WfExpr(ZeroDivisorTree()) && EvalExpr(ZeroDivisorTree()) == Err(DivisionByZero)
  {
  }

  /** "1/0" is rejected: the division raises. */
  lemma ZeroDivisorExample(s: string)
    requires s == "1/0"
    ensures Calculate(s) == Err(DivisionByZero)
  {
    ZeroDivisorText();
    ZeroDivisorValue();
    ReadsAs(ZeroDivisorTree(), s);
  }

  // ---------- where a factor stops

  /** "(2)3": a group ends at its ')', whatever follows it. */
  lemma GroupStopsExample(s: string)
    requires s == "(2)3"
    ensures ParseFactor(s) == Ok(Parsed(2.0, "3"))
  {
    var g := Group("", Expr(Just(Lit("2")), AddEnd), "");
    assert PrintFactor(g) + "3" == s;
    FactorRead(g, "3");
  }

  /** "2." followed by anything but a digit (such as "2.x"): a '.' that no
      digit follows is not part of the literal. */
  lemma LiteralStopsExample(s: string, x: string)
    requires x == [] || !IsDigit(x[0])
    requires s == "2." + x
    ensures ParseFactor(s) == Ok(Parsed(2.0, "." + x))
  {
    var two, after := Numeral("2", ""), "." + x;
    assert Value(two) == 2.0;
    assert !Extends(two, after);
    assert "" + Spell(two) + after == s;
    NumberRead("", two, after);
  }

  // ---------- rejected inputs

  /** "-5" is rejected: there is no unary minus. */
  lemma NegativeLiteralExample(s: string)
    requires s == "-5"
    ensures Calculate(s) == Err(NumberRequired)
  {
    assert SkipSpaces(s) == s;
    OperandRequired(s);
  }

  /** Blank text is rejected: a number is required. */
  lemma BlankExample(s: string)
    requires s == "  "
    ensures Calculate(s) == Err(NumberRequired)
  {
    assert SkipSpaces(s) == [];
    OperandRequired(s);
  }

  /** "2+" is rejected: the '+' has no operand after it. */
  lemma MissingAddendExample(s: string)
    requires s == "2+"
    ensures Calculate(s) == Err(NumberRequired)
  {
    assert PrintFactor(Lit("2")) + "" + ['+'] + "" == s;
    assert SkipSpaces("") == [];
    OperatorWithoutOperand(Lit("2"), "", '+', "");
  }

  /** "2/ )" is rejected: the '/' has no operand after it. */
  lemma MissingDivisorExample(s: string)
    requires s == "2/ )"
    ensures Calculate(s) == Err(NumberRequired)
  {
    assert PrintFactor(Lit("2")) + "" + ['/'] + " )" == s;
    assert SkipSpaces(" )") == ")";
    OperatorWithoutOperand(Lit("2"), "", '/', " )");
  }

  /** "(2+3" is rejected: the group is never closed. */
  lemma UnclosedExample(s: string)
    requires s == "(2+3"
    ensures Calculate(s) == Err(CloseParenRequired)
  {
    SumText();
    SumValue();
    assert "" + "(" + PrintExpr(SumTree()) + "" == s;
    UnclosedGroup("", SumTree(), "");
  }

  /** "(2+3 x" is rejected: after the inner expression comes 'x', not ')'. */
  lemma UnclosedBeforeTextExample(s: string)
    requires s == "(2+3 x"
    ensures Calculate(s) == Err(CloseParenRequired)
  {
    SumText();
    SumValue();
    assert "" + "(" + PrintExpr(SumTree()) + " x" == s;
    assert SkipSpaces(" x") == "x";
    UnclosedGroup("", SumTree(), " x");
  }

  /** "2(3)" is rejected as malformed: juxtaposition is not multiplication,
      so the parse stops after "2" with "(3)" left over. */
  lemma JuxtapositionExample(s: string)
    requires s == "2(3)"
    ensures Calculate(s) == Err(MalformedExpression)
  {
    var e := Expr(Just(Lit("2")), AddEnd);
    assert SkipSpaces("(3)") == "(3)";
    assert WfExpr(e) && EvalExpr(e).Ok? && Boundary("(3)") && NoOp("(3)") && PrintExpr(e) + "(3)" == s;
    TrailingText(e, "(3)");
  }
}
