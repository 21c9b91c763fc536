# Arithmetic calculator parser — a Dafny model

The Flask calculator in `app.py` computes its "basic" mode with a small
recursive-descent parser and evaluator (app.py:20-69):

- `skip_spaces` strips leading whitespace.
- `parse_number` reads a literal `\d+(\.\d+)?`.
- `parse_factor` reads a parenthesised expression or a number.
- `parse_term` folds `*` and `/` over factors, `parse_expression` folds `+`
  and `-` over terms, and both loop while their operator comes next.
- `calculate_expression` rejects any non-blank text left after the
  expression.

This project models that parser and proves what it accepts and what it
computes.

Modules:

- **Results**: the four ways the calculator fails (a number required, a `)`
  required, a malformed expression, division by zero), the `Result` type,
  and the `(value, remainder)` pair the parse functions return.
- **Text**: the whitespace `str.lstrip()` removes, and `SkipSpaces`.
- **Numbers**: the greedy match of `\d+(\.\d+)?` as an explicit scan over
  digits, and `ParseNumber`. A literal's value is the exact rational number
  it spells.
- **Grammar**: the parse functions as recursive Dafny functions.
  - The two `while True` loops are tail-recursive folds, `TermTail` and
    `ExprTail`, that accumulate from the left.
  - Each has step lemmas (what one round of a loop does, when it stops, what
    a failing operand does) and suffix lemmas (every remainder is a suffix of
    the input).
- **Calculator**: the four Python functions as methods, each proved equal
  to its Grammar function. `ParseTerm` and `ParseExpression` keep the
  source's `while True` loop and `break`; `ParseFactor` and
  `CalculateExpression` have no loop, as in the source.
- **Syntax**: the grammar the code implements, as syntax trees with a printer
  and an evaluator.
  - `expression := term (('+'|'-') term)*`, `term := factor (('*'|'/') factor)*`
    and `factor := '(' expression ')' | number`, with blanks before any token.
  - The read-back theorems prove that the parser reads every printed tree to
    that tree's value. This gives `*` and `/` precedence over `+` and `-`, and
    makes all four operators left-associative.
  - It also characterises the rejected inputs: a missing first operand, an
    operator with no operand after it (at any point of either loop), an
    unclosed group, and trailing text.
- **Soundness**: the converse. Every text the calculator accepts is a printed
  tree followed by blanks, and the result is that tree's value.
  `CalculateAccepts` combines both directions into an if-and-only-if.
- **Examples**: concrete calculations derived from the theorems.
  - `2+3*4` is 14 and `(2+3)*4` is 20.
  - `8/4/2` is 1 and ` 10 - 3 - 2 ` is 5.
  - `1.5*2` is 3.
  - `1/0` fails with division by zero.
  - `-5`, a blank input, `2+` and `2/ )` fail because a number is required.
  - `(2+3` and `(2+3 x` fail because `)` is required.
  - `2(3)` fails as malformed.

Python's float division `val /= nv` (app.py:48) raises `ZeroDivisionError`
on a zero divisor, so the model returns `Err(DivisionByZero)` once that
divisor has been parsed, and the text after it is not read.

## Model

| member | source | states |
|---|---|---|
| Text.IsSpace | app.py:21 | exactly the characters CPython's `str.isspace` accepts, which are what `str.lstrip()` removes |
| Text.IsDigit | app.py:25 | the ASCII digits `0`-`9`, the digits the model lets `\d` match |
| Text.SkipSpaces | app.py:21 | the result is no longer than the input and does not start with whitespace (the `str.isspace` set) |
| Text.SkipSpacesDrops | app.py:21 | the result is a suffix of the input, and everything removed is whitespace |
| Text.SkipSpacesIdempotent | app.py:21 | stripping twice is the same as stripping once |
| Text.SkipSpacesOf | app.py:21 | whitespace followed by text that does not start with whitespace strips to exactly that text |
| Text.BlanksThenRest | app.py:21 | every text is its leading blanks followed by what stripping leaves |
| Numbers.Value | app.py:28 | the exact rational that `float(m.group())` rounds: the whole digits plus the fraction digits over 10 to the number of fraction digits, which adds less than one to the whole part |
| Numbers.DigitRun | app.py:25 | the greedy `\d+` at an index: every character it covers is a digit, and the next one is not (or the text ends) |
| Numbers.DigitRunAt | app.py:25 | any run of digits that no digit follows is exactly what DigitRun finds |
| Numbers.ScanNumeral | app.py:25 | the match of `\d+(\.\d+)?` is a well-formed literal no longer than the text |
| Numbers.ScanNumeralMatch | app.py:25 | the text starts with the matched literal's spelling, and what follows cannot extend the match (no digit; no `.` plus digit after a whole number) |
| Numbers.ScanWhole | app.py:25 | a whole number that is not followed by a digit, or by `.` and a digit, is matched exactly |
| Numbers.ScanFraction | app.py:25 | a literal `d.d` that is not followed by a digit is matched exactly, fraction included |
| Numbers.ScanNumeralSpell | app.py:25 | every well-formed literal that the following text cannot extend reads back as itself |
| Numbers.ParseNumber | app.py:23-29 | fails, with the number-required error, exactly when the stripped text is empty or does not start with a digit (no sign is accepted); on success the remainder is strictly shorter than the stripped text and does not start with a digit |
| Numbers.ParseNumberSpell | app.py:23-29 | blanks, then a literal, then text that cannot extend it, parse to the literal's value and leave exactly that text |
| Numbers.ParseNumberRead | app.py:23-29 | every success read a well-formed literal after the blanks, returned its value, and stopped where the greedy match stops |
| Numbers.ParseNumberSuffix | app.py:23-29 | the remainder is a suffix of the input |
| Grammar.ParseFactor | app.py:31-39 | a success consumes at least one character; errors are never the malformed-expression error |
| Grammar.TermTail | app.py:43-50 | the loop never grows the text, and stops on stripped text that starts with neither `*` nor `/` |
| Grammar.ParseTerm | app.py:41-51 | consumes at least one character; the remainder is stripped and starts with neither `*` nor `/` |
| Grammar.ExprTail | app.py:55-62 | the loop stops on stripped text with no `+` or `-` next, and with no `*` or `/` either once it has read a term |
| Grammar.ParseExpression | app.py:53-63 | consumes at least one character; the remainder is stripped and starts with none of the four operators |
| Grammar.Calculate | app.py:65-69 | succeeds exactly when the expression parses and nothing is left, with the expression's value; a parse error passes through; any text left over gives the malformed-expression error |
| Grammar.FactorNumber | app.py:39 | a factor that does not open with `(` is a number |
| Grammar.FactorClose | app.py:33-38 | after `(` and an inner expression, the factor is the inner value and the text after `)` when `)` follows the blanks, and otherwise the `)`-required error |
| Grammar.FactorInnerError | app.py:34 | an inner expression that fails makes the factor fail with the same error |
| Grammar.TermTailStop | app.py:44-50 | with no `*` or `/` next, the loop returns the accumulator and the stripped text |
| Grammar.TermTailStep | app.py:45-48 | `*` multiplies the accumulator by the next factor; `/` divides by it, or fails with division by zero when the factor is zero; the loop then goes on after the factor |
| Grammar.TermTailError | app.py:46-48 | a factor that fails after `*` or `/` ends the loop with its error |
| Grammar.ExprTailStop | app.py:56-62 | with no `+` or `-` next, the loop returns the accumulator and the stripped text |
| Grammar.ExprTailStep | app.py:57-60 | `+` adds the next term to the accumulator and `-` subtracts it; the loop then goes on after the term |
| Grammar.ExprTailError | app.py:58-60 | a term that fails after `+` or `-` ends the loop with its error |
| Grammar.TermSplit | app.py:41-42 | a term is its first factor followed by the multiplicative loop, and fails when that factor fails |
| Grammar.ExpressionSplit | app.py:53-54 | an expression is its first term followed by the additive loop, and fails when that term fails |
| Grammar.OperandMissing | app.py:39 | where the next non-blank character is neither a digit nor `(`, both a factor and a term fail with number-required |
| Grammar.TermTailOperandMissing | app.py:45-48 | a `*` or `/` followed by no operand ends the multiplicative loop with number-required |
| Grammar.ExprTailOperandMissing | app.py:57-60 | a `+` or `-` followed by no operand ends the additive loop with number-required |
| Grammar.FactorSuffix | app.py:31-39 | the factor's remainder is a suffix of its input |
| Grammar.TermTailSuffix | app.py:43-50 | the multiplicative loop's remainder is a suffix of its input |
| Grammar.TermSuffix | app.py:41-51 | the term's remainder is a suffix of its input |
| Grammar.ExprTailSuffix | app.py:55-62 | the additive loop's remainder is a suffix of its input |
| Grammar.ExpressionSuffix | app.py:53-63 | the expression's remainder is a suffix of its input |
| Calculator.ParseFactor | app.py:31-39 | the method with its branches returns what Grammar.ParseFactor specifies |
| Calculator.ParseTerm | app.py:41-51 | the `while True` loop over `*` and `/` returns what Grammar.ParseTerm specifies, including the division-by-zero failure |
| Calculator.ParseExpression | app.py:53-63 | the `while True` loop over `+` and `-` returns what Grammar.ParseExpression specifies |
| Calculator.CalculateExpression | app.py:65-69 | returns what Grammar.Calculate specifies |
| Syntax.NumberRead | app.py:39 | a padded literal followed by text that cannot extend it (no digit next, and no `.` and digit after a whole number) is a factor with the literal's value, leaving exactly that text |
| Syntax.GroupRead | app.py:33-38 | `(`, an expression that reads back, blanks and `)` form a factor with the inner value (or the inner error) |
| Syntax.FactorRead | app.py:31-39 | every printed factor parses to its value and leaves exactly the text after it: any text at all after a group, and after a literal any text that cannot extend it |
| Syntax.MulStepRead | app.py:45-48 | one printed `*` or `/` step folds its factor's value into the accumulator, propagating the factor's error or a division by zero |
| Syntax.AddStepRead | app.py:57-60 | one printed `+` or `-` step folds its term's value into the accumulator, propagating the term's error |
| Syntax.TermRead | app.py:41-51 | a printed term parses to its left-folded value and leaves the stripped text after it, when that text starts with neither a digit nor `.` and has no `*` or `/` next |
| Syntax.MulTailRead | app.py:43-50 | the multiplicative loop over a printed chain of steps gives their left fold, when the text after the chain starts with neither a digit nor `.` and has no `*` or `/` next |
| Syntax.ExprRead | app.py:53-63 | a printed expression parses to its value (products bind tighter, operators fold left) and leaves the stripped text after it, when that text starts with neither a digit nor `.` and has no operator next |
| Syntax.AddTailRead | app.py:55-62 | the additive loop over a printed chain of steps gives their left fold, when the text after the chain starts with neither a digit nor `.` and has no operator next |
| Syntax.CalculatePrinted | app.py:65-69 | a printed expression with trailing blanks calculates to exactly the expression's value or error |
| Syntax.OperandRequired | app.py:24-27 | text whose first non-blank character is neither a digit nor `(` fails with number-required, including blank text and a leading `-` |
| Syntax.OperatorWithoutOperand | app.py:45-60 | a factor that evaluates, blanks, one of `*`, `/`, `+`, `-`, then text whose next non-blank character is neither a digit nor `(` fail with number-required |
| Syntax.UnclosedGroup | app.py:35-37 | `(` and a well-formed expression that evaluates without error fail with the `)`-required error, whenever what follows is not `)` after blanks (the end of the text, or anything that is no operator and does not start with a digit or `.`) |
| Syntax.TrailingText | app.py:66-68 | a well-formed expression that evaluates without error (no division by zero), followed by non-blank text whose next token is no operator and which does not start with a digit or `.` (so it cannot continue the last literal), fails as malformed |
| Soundness.FactorSound | app.py:31-39 | every successful factor read a well-formed printed factor with that value, followed by the remainder |
| Soundness.MulStepSound | app.py:45-48 | a successful loop that starts with `*` or `/` read a printed chain of steps with that folded value, then blanks, then the remainder |
| Soundness.TermTailSound | app.py:43-50 | every successful multiplicative loop read a printed chain of steps with that folded value, then blanks, then the remainder |
| Soundness.TermSound | app.py:41-51 | every successful term read a well-formed printed term with that value, then blanks, then the remainder |
| Soundness.AddStepSound | app.py:57-60 | a successful loop that starts with `+` or `-` read a printed chain of steps with that folded value, then blanks, then the remainder |
| Soundness.ExprTailSound | app.py:55-62 | every successful additive loop read a printed chain of steps with that folded value, then blanks, then the remainder |
| Soundness.ExpressionSound | app.py:53-63 | every successful expression read a well-formed printed expression with that value, then blanks, then the remainder |
| Soundness.CalculateAccepts | app.py:65-69 | a text calculates to `v` if and only if it is a well-formed printed expression of value `v` followed by blanks |
| Examples.PrecedenceExample | app.py:53-63 | `2+3*4` is 14: multiplication binds tighter |
| Examples.GroupingExample | app.py:33-38 | `(2+3)*4` is 20: parentheses override precedence |
| Examples.DivisionLeftExample | app.py:43-50 | `8/4/2` is 1: division folds from the left |
| Examples.SubtractionLeftExample | app.py:55-62 | ` 10 - 3 - 2 ` is 5: subtraction folds from the left, and blanks are skipped everywhere |
| Examples.DecimalExample | app.py:25-28 | `1.5*2` is 3: a literal may have a fraction part |
| Examples.ZeroDivisorExample | app.py:47-48 | `1/0` fails with division by zero |
| Examples.NegativeLiteralExample | app.py:25-27 | `-5` fails with number-required: there is no unary minus |
| Examples.BlankExample | app.py:25-27 | blank text fails with number-required |
| Examples.MissingAddendExample | app.py:57-58 | `2+` fails with number-required: the `+` has no operand |
| Examples.MissingDivisorExample | app.py:47-48 | `2/ )` fails with number-required: the `/` has no operand |
| Examples.GroupStopsExample | app.py:33-38 | `(2)3` reads as the factor 2, leaving `3`: a group ends at its `)` |
| Examples.LiteralStopsExample | app.py:25-29 | `2.` followed by a non-digit reads as the factor 2, leaving the `.`: the fraction is taken only when a digit follows the `.` |
| Examples.UnclosedExample | app.py:36-37 | `(2+3` fails with the `)`-required error |
| Examples.UnclosedBeforeTextExample | app.py:35-37 | `(2+3 x` fails with the `)`-required error: `x` comes where `)` is required |
| Examples.JuxtapositionExample | app.py:67-68 | `2(3)` fails as malformed: juxtaposition is not multiplication |

## Left out

- Floating-point rounding: `float(m.group())` and the four operations round to
  IEEE-754 doubles. The model computes with exact rationals, so its values are
  the exact ones, and overflow to infinity is not modelled. The zero-divisor
  test is also made on the exact value, so some inputs fail differently.
  For `1/(0.1+0.2-0.3)` the exact divisor is 0: the model gives
  `Err(DivisionByZero)`, while Python divides by a tiny nonzero rounding error
  and returns about 1.8e16. Conversely, a literal of `0.`, some 400 zeros
  and then a nonzero digit rounds to `0.0` as a float, so dividing by it
  raises in Python but succeeds in the model.
- Unicode digits: Python's `\d` also matches non-ASCII decimal digits (such as
  Arabic-Indic digits), and `float` accepts them. The model accepts only the
  ASCII digits `0`-`9`.
- Exceptions: the `ValueError` and `ZeroDivisionError` raised by the parser
  become `Err` values. Their message texts are represented only by the
  constructors of `CalcError`.
- Python's recursion limit: deeply nested parentheses raise `RecursionError` in
  the source. The model has no depth bound.
- `calculate_scientific` (app.py:72-78) evaluates through `eval` with a math
  namespace. That evaluator is not part of this arithmetic parser and is not
  modelled.
- The database functions and their configuration (app.py:12-18, app.py:81-133)
  are PostgreSQL I/O and are not modelled.
- The Flask routes (app.py:136-197) are not modelled: page rendering, flash
  messages, choosing the mode, history storage, and `:.6f` formatting of the
  result. `calc` strips the input and rejects an empty one before calling
  `calculate_expression`. That is also left out; the model takes the text as
  it is passed in, and blank text gives the number-required error.
- Syntax.TermRead: a term whose last factor is a group, or a literal followed
  by `.` and a non-digit, is also read back before a digit or a `.` (`(2)3`,
  `2.x`). This lemma requires the text after the term to start with neither,
  so it does not cover those cases. Syntax.FactorRead covers them for a single
  factor.
- Syntax.MulTailRead: the same premise on the text after the chain, for the
  same reason as Syntax.TermRead.
- Syntax.ExprRead: the same premise on the text after the expression, for the
  same reason as Syntax.TermRead.
- Syntax.AddTailRead: the same premise on the text after the chain, for the
  same reason as Syntax.TermRead.
