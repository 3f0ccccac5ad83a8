/** What `SCell`'s recursive descent and its formula recogniser do with the
    text of an arithmetic expression, and where they stop or fail. */
module SCellProofs {
  import opened Common
  import opened JavaLang
  import opened Arithmetic
  import opened SCell
  import Ex2Utils

  // ------------------------------------------------------------- descent

  /** `parseFactor` reads a literal followed by no number character. */
  lemma LiteralParses(text: string, cs: string, i: nat)
    requires WellFormedLit(text) && Occurs(cs, i, text) && EndsLiteral(cs, i + |text|)
    ensures FactorParse(cs, i) == Success(Parsed(Finite(ParseDecimalRun(text).value), i + |text|))
  {
    assert cs[i] == text[0];
    RunEndOf(cs, i, i + |text|);
  }

  /** The group case of `FactorParsesPrint`, given the inner expression's. */
  lemma GroupCase(e: Expr, cs: string, i: nat)
    requires WellFormed(e) && i + 1 + Len(e) < |cs| && cs[i] == '(' && cs[i + 1 + Len(e)] == ')'
    requires ExprParse(cs, i + 1) == ExprLoop(cs, Value(e), i + 1 + Len(e))
    ensures FactorParse(cs, i) == Success(Parsed(Value(e), i + 1 + Len(e) + 1))
  {
    var j := i + 1 + Len(e);
    assert ExprLoop(cs, Value(e), j) == Success(Parsed(Value(e), j));
  }

  /** One turn of `parseTerm`'s loop over the operator of a product. */
  lemma MulCase(l: Term, op: MulOp, r: Factor, cs: string, j: nat, end: nat)
    requires WellFormedTerm(l) && WellFormedFactor(r) && j < |cs| && cs[j] == MulChar(op)
    requires FactorParse(cs, j + 1) == Success(Parsed(FactorValue(r), end))
    ensures TermLoop(cs, TermValue(l), j) == TermLoop(cs, TermValue(Mul(l, op, r)), end)
  {
  }

  /** A term that is a single factor: `parseTerm` enters its loop right
      after the factor. */
  lemma FactorCase(cs: string, i: nat, factor: Parsed)
    requires i <= |cs| && FactorParse(cs, i) == Success(factor)
    ensures TermParse(cs, i) == TermLoop(cs, factor.value, factor.next)
  {
  }

  /** The single-term case of `ExprParsesPrint`, given the term's. */
  lemma SingleCase(t: Term, cs: string, i: nat)
    requires WellFormedTerm(t) && EndsTerm(cs, i + TermLen(t)) && i <= |cs|
    requires TermParse(cs, i) == TermLoop(cs, TermValue(t), i + TermLen(t))
    ensures ExprParse(cs, i) == ExprLoop(cs, Value(Single(t)), i + TermLen(t))
  {
    var end := i + TermLen(t);
    assert TermLoop(cs, TermValue(t), end) == Success(Parsed(TermValue(t), end));
  }

  /** One turn of `parseExpression`'s loop over the operator of a sum. */
  lemma AddCase(l: Expr, op: AddOp, r: Term, cs: string, j: nat, end: nat)
    requires WellFormed(l) && WellFormedTerm(r) && j < |cs| && cs[j] == AddChar(op)
    requires end <= |cs| && EndsTerm(cs, end)
    requires TermParse(cs, j + 1) == TermLoop(cs, TermValue(r), end)
    ensures ExprLoop(cs, Value(l), j) == ExprLoop(cs, Value(Add(l, op, r)), end)
  {
    assert TermLoop(cs, TermValue(r), end) == Success(Parsed(TermValue(r), end));
  }

  /** `parseFactor` reads a printed factor completely. */
  lemma {:induction false} FactorParsesPrint(f: Factor, cs: string, i: nat)
    requires FactorSpans(cs, i, f)
    ensures FactorParse(cs, i) == Success(Parsed(FactorValue(f), i + FactorLen(f)))
    decreases f, 0, 1
  {
    match f
    case Lit(text) =>
      LiteralParses(text, cs, i);
    case Group(e) =>
      GroupParsesPrint(e, cs, i);
  }

  lemma {:induction false} GroupParsesPrint(e: Expr, cs: string, i: nat)
    requires FactorSpans(cs, i, Group(e))
    ensures FactorParse(cs, i) == Success(Parsed(Value(e), i + FactorLen(Group(e))))
    decreases Group(e), 0, 0
  {
    GroupSpans(e, cs, i);
    ExprParsesPrint(e, cs, i + 1);
    GroupCase(e, cs, i);
  }

  /** `parseTerm` reads a printed term and leaves its loop at the end of it
      with the term's value. */
  lemma {:induction false} TermParsesPrint(t: Term, cs: string, i: nat)
    requires TermSpans(cs, i, t)
    ensures TermParse(cs, i) == TermLoop(cs, TermValue(t), i + TermLen(t))
    decreases t, 1, 1
  {
    match t
    case Factor(f) =>
      FactorParsesPrint(f, cs, i);
      FactorCase(cs, i, Parsed(FactorValue(f), i + FactorLen(f)));
    case Mul(l, op, r) =>
      MulParsesPrint(l, op, r, cs, i);
  }

  lemma {:induction false} MulParsesPrint(l: Term, op: MulOp, r: Factor, cs: string, i: nat)
    requires TermSpans(cs, i, Mul(l, op, r))
    ensures TermParse(cs, i) == TermLoop(cs, TermValue(Mul(l, op, r)), i + TermLen(Mul(l, op, r)))
    decreases Mul(l, op, r), 1, 0
  {
    MulSpans(l, op, r, cs, i);
    TermParsesPrint(l, cs, i);
    FactorParsesPrint(r, cs, i + TermLen(l) + 1);
    MulCase(l, op, r, cs, i + TermLen(l), i + TermLen(l) + 1 + FactorLen(r));
  }

  /** `parseExpression` reads a printed expression and leaves its loop at
      the end of it with the expression's value. */
  lemma {:induction false} ExprParsesPrint(e: Expr, cs: string, i: nat)
    requires ExprSpans(cs, i, e) && EndsTerm(cs, i + Len(e))
    ensures ExprParse(cs, i) == ExprLoop(cs, Value(e), i + Len(e))
    decreases e, 2, 1
  {
    match e
    case Single(t) =>
      TermParsesPrint(t, cs, i);
      SingleCase(t, cs, i);
    case Add(l, op, r) =>
      AddParsesPrint(l, op, r, cs, i);
  }

  lemma {:induction false} AddParsesPrint(l: Expr, op: AddOp, r: Term, cs: string, i: nat)
    requires ExprSpans(cs, i, Add(l, op, r)) && EndsTerm(cs, i + Len(Add(l, op, r)))
    ensures ExprParse(cs, i) == ExprLoop(cs, Value(Add(l, op, r)), i + Len(Add(l, op, r)))
    decreases Add(l, op, r), 2, 0
  {
    AddSpans(l, op, r, cs, i);
    ExprParsesPrint(l, cs, i);
    TermParsesPrint(r, cs, i + Len(l) + 1);
    AddCase(l, op, r, cs, i + Len(l), i + Len(l) + 1 + TermLen(r));
  }

  /** The descent computes the value of a printed expression and stops in
      front of the first character no rule consumes, such as a blank. */
  lemma DescentComputesValue(e: Expr, rest: string)
    requires WellFormed(e)
    requires rest == [] || (!IsNumberChar(rest[0]) && !IsOperatorChar(rest[0]))
    ensures ExprParse(Print(e) + rest, 0) == Success(Parsed(Value(e), |Print(e)|))
  {
    var cs := Print(e) + rest;
    assert cs[0..|Print(e)|] == Print(e);
    SpansOfOccurs(cs, 0, e);
    ExprParsesPrint(e, cs, 0);
  }

  /** A group is closed by whatever character follows its expression: the
      closing character is skipped without being read. */
  lemma GroupSkipsCloser(e: Expr, c: char, rest: string)
    requires WellFormed(e) && !IsNumberChar(c) && !IsOperatorChar(c)
    ensures FactorParse(['('] + Print(e) + [c] + rest, 0) == Success(Parsed(Value(e), |Print(e)| + 2))
  {
    var cs := ['('] + Print(e) + [c] + rest;
    assert cs[1..1 + |Print(e)|] == Print(e);
    assert cs[1 + |Print(e)|] == c;
    SpansOfOccurs(cs, 1, e);
    ExprParsesPrint(e, cs, 1);
  }

  /** A factor that starts with a letter -- a cell reference -- makes
      `parseFactor`, and so `parseTerm`, throw `NumberFormatException`. */
  lemma LetterFactorFails(cs: string, i: nat)
    requires i < |cs| && IsAsciiLetter(cs[i])
    ensures FactorParse(cs, i) == Failure(NumberFormat) && TermParse(cs, i) == Failure(NumberFormat)
  {
    assert RunEnd(cs, i) == i;
    assert cs[i..i] == [];
    assert NumberAt(cs, i) == Failure(NumberFormat);
  }

  /** An operand the descent reaches that starts with a letter makes the
      whole evaluation fail. */
  lemma ReferenceAfterOperatorFails(e: Expr, op: AddOp, c: char, rest: string)
    requires WellFormed(e) && IsAsciiLetter(c)
    ensures ExprParse(Print(e) + [AddChar(op)] + [c] + rest, 0).Failure?
  {
    var cs := Print(e) + [AddChar(op)] + [c] + rest;
    var n := |Print(e)|;
    assert Occurs(cs, 0, Print(e)) by { assert cs[0..n] == Print(e); }
    assert cs[n] == AddChar(op) && cs[n + 1] == c;
    SpansOfOccurs(cs, 0, e);
    ExprParsesPrint(e, cs, 0);
    LetterFactorFails(cs, n + 1);
  }

  /** A cell reference directly after `*` or `/` makes the product, and so
      the whole descent, fail. */
  lemma ReferenceAfterProductOperatorFails(t: Term, op: MulOp, c: char, rest: string)
    requires WellFormedTerm(t) && IsAsciiLetter(c)
    ensures TermParse(PrintTerm(t) + [MulChar(op)] + [c] + rest, 0).Failure?
    ensures ExprParse(PrintTerm(t) + [MulChar(op)] + [c] + rest, 0).Failure?
  {
    var cs := PrintTerm(t) + [MulChar(op)] + [c] + rest;
    var n := |PrintTerm(t)|;
    assert Occurs(cs, 0, PrintTerm(t)) by { assert cs[0..n] == PrintTerm(t); }
    assert cs[n] == MulChar(op) && cs[n + 1] == c;
    OccursTermAt(cs, 0, t);
    TermParsesPrint(t, cs, 0);
    LetterFactorFails(cs, n + 1);
  }

  /** A blank ends the descent: whatever follows it, even a cell reference
      after an operator, is never read. */
  lemma TextAfterBlankIgnored(e: Expr, rest: string, s: string)
    requires WellFormed(e) && rest != [] && IsRegexSpace(rest[0])
    requires s == ['='] + Print(e) + rest
    ensures FormValue(s) == if IsFormula(s) then FormOk(Value(e)) else FormErr
  {
    assert s[1..] == Print(e) + rest;
    DescentComputesValue(e, rest);
  }

  /** `=1 + A1` is a formula, and it evaluates to 1: the reference after
      the blank is ignored. */
  lemma ReferenceAfterBlankIgnored()
    ensures IsFormula("=1 + A1")
    ensures FormValue("=1 + A1") == FormOk(Finite(1.0))
  {
    var u := "=1 + A1";
    assert SpanLen(u[1..], IsAsciiDigit) == 1;
    assert SpanLen(u[2..], IsRegexSpace) == 1;
    assert SpanLen(u[4..], IsRegexSpace) == 1;
    assert SpanLen(u[6..], IsAsciiDigit) == 1;
    assert ChainFrom(u, 2);
    assert !HasAdjacentLetters(u);
    var e := Single(Factor(Lit("1")));
    assert Print(e) == "1";
    assert ['='] + Print(e) + " + A1" == u;
    TextAfterBlankIgnored(e, " + A1", u);
  }

  // ------------------------------------------------------------ isFormula

  /** A sum of two numbers is a formula. */
  lemma SumIsFormula()
    ensures IsFormula("=1+2")
  {
    var t := "=1+2";
    assert SpanLen(t[1..], IsAsciiDigit) == 1;
    assert SpanLen(t[2..], IsRegexSpace) == 0;
    assert SpanLen(t[3..], IsRegexSpace) == 0;
    assert SpanLen(t[3..], IsAsciiDigit) == 1;
    assert ChainFrom(t, 2);
  }

  /** Blanks around the operator are allowed. */
  lemma SpacedSumIsFormula()
    ensures IsFormula("=1 + 2")
  {
    var u := "=1 + 2";
    assert SpanLen(u[1..], IsAsciiDigit) == 1;
    assert SpanLen(u[2..], IsRegexSpace) == 1;
    assert SpanLen(u[4..], IsRegexSpace) == 1;
    assert SpanLen(u[5..], IsAsciiDigit) == 1;
    assert ChainFrom(u, 2);
  }

  /** A cell reference is an operand of the pattern. */
  lemma ReferenceProductIsFormula()
    ensures IsFormula("=A1*2")
  {
    var s := "=A1*2";
    assert SpanLen(s[2..], IsAsciiDigit) == 1;
    assert SpanLen(s[3..], IsRegexSpace) == 0;
    assert SpanLen(s[4..], IsRegexSpace) == 0;
    assert SpanLen(s[4..], IsAsciiDigit) == 1;
    assert ChainFrom(s, 3);
    assert !HasAdjacentLetters(s);
  }

  /** A missing `=`, a dangling operator and a two-letter reference are
      refused. */
  lemma FormulaShapesRefused()
    ensures !IsFormula("1+2")
    ensures !IsFormula("=1+")
    ensures !IsFormula("=AB1")
  {
    var t := "=1+";
    assert SpanLen(t[1..], IsAsciiDigit) == 1;
    assert SpanLen(t[2..], IsRegexSpace) == 0;
    assert SpanLen(t[3..], IsRegexSpace) == 0;
    assert !ChainFrom(t, 2);
    var u := "=AB1";
    assert IsAsciiLetter(u[1]) && IsAsciiLetter(u[2]);
    assert !HasLineTerminator(u);
  }

  // ---------------------------------------------------------- computeForm

  /** A formula whose first operand is a letter (a cell reference) always
      evaluates to `ERR_FORM`. */
  lemma LeadingReferenceIsError(s: string)
    requires |s| >= 2 && IsAsciiLetter(s[1])
    ensures FormValue(s) == FormErr
  {
    if IsFormula(s) {
      var cs := s[1..];
      LetterFactorFails(cs, 0);
      assert ExprParse(cs, 0).Failure?;
    }
  }

  /** A printed expression that is a formula evaluates to its value. */
  lemma FormulaComputesValue(e: Expr)
    requires WellFormed(e) && IsFormula(['='] + Print(e))
    ensures FormValue(['='] + Print(e)) == FormOk(Value(e))
  {
    assert (['='] + Print(e))[1..] == Print(e) + [];
    DescentComputesValue(e, []);
  }

  /** Neither error string is a formula or a number: `Double.parseDouble`
      refuses `ERR_FORM`. */
  lemma ErrorStringsAreText()
    ensures IsErr(Ex2Utils.ERR_FORM) && IsErr(Ex2Utils.ERR_CYCLE)
    ensures IsText(Ex2Utils.ERR_FORM) && IsText(Ex2Utils.ERR_CYCLE)
    ensures !IsJavaDouble(Ex2Utils.ERR_FORM)
  {
    var e := Ex2Utils.ERR_FORM;
    TrimOfUntrimmed(e);
    assert SpanLen(e, IsAsciiDigit) == 0;
    var c := Ex2Utils.ERR_CYCLE;
    TrimOfUntrimmed(c);
    assert SpanLen(c, IsAsciiDigit) == 0;
  }
}
