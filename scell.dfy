/** `SCell`: one spreadsheet cell -- its raw text, a type and a computation
    order -- together with the static helpers that classify a text and the
    recursive-descent evaluator behind `computeForm`. */
module SCell {
  import opened Common
  import opened JavaLang
  import Ex2Utils

  // ------------------------------------------------------ classification

  /** `s.matches("-?\\d+(\\.\\d+)?")`. */
  predicate IsNumberPattern(s: string) {
    var b := if s != [] && s[0] == '-' then s[1..] else s;
    var k := SpanLen(b, IsAsciiDigit);
    k > 0 && (k == |b| || (b[k] == '.' && k + 1 < |b| && AllDigits(b[k + 1..])))
  }

  /** The type `setData` gives a text: the first test that holds wins. */
  function Classify(s: string): (t: int)
    ensures t == Ex2Utils.TEXT || t == Ex2Utils.NUMBER || t == Ex2Utils.FORM
    ensures t == Ex2Utils.NUMBER <==> IsNumberPattern(s)
    ensures t == Ex2Utils.FORM <==> StartsWith(s, "=")
  {
    if s == [] then Ex2Utils.TEXT
    else if IsNumberPattern(s) then Ex2Utils.NUMBER
    else if StartsWith(s, "=") then Ex2Utils.FORM
    else Ex2Utils.TEXT
  }

  class SCell {
    var line: string
    var cellType: int
    var order: int

    /** Stores the text, then forces the type back to TEXT and the order to
        0, so the classification `setData` made is always overwritten. */
    constructor (s: string)
      ensures line == s && cellType == Ex2Utils.TEXT && order == 0
    {
      new;
      SetData(s);
      cellType := Ex2Utils.TEXT;
      order := 0;
    }

    method GetOrder() returns (t: int)
      ensures t == order
    {
      t := order;
    }

    method SetOrder(t: int)
      modifies this
      ensures order == t && line == old(line) && cellType == old(cellType)
    {
      order := t;
    }

    /** `toString()` is the raw text. */
    method ToString() returns (s: string)
      ensures s == line
    {
      s := GetData();
    }

    /** Stores the text verbatim and classifies it; the order is untouched. */
    method SetData(s: string)
      modifies this
      ensures line == s && cellType == Classify(s) && order == old(order)
    {
      line := s;
      if s == [] {
        cellType := Ex2Utils.TEXT;
      } else if IsNumberPattern(s) {
        cellType := Ex2Utils.NUMBER;
      } else if StartsWith(s, "=") {
        cellType := Ex2Utils.FORM;
      } else {
        cellType := Ex2Utils.TEXT;
      }
    }

    method GetData() returns (s: string)
      ensures s == line
    {
      s := line;
    }

    method GetType() returns (t: int)
      ensures t == cellType
    {
      t := cellType;
    }

    method SetType(t: int)
      modifies this
      ensures cellType == t && line == old(line) && order == old(order)
    {
      cellType := t;
    }
  }

  /** A text the NUMBER pattern accepts neither starts with `=` nor fails
      `Double.parseDouble`: the classification's branches do not overlap
      and a NUMBER cell is a number. */
  lemma NumberPatternIsNumber(s: string)
    requires IsNumberPattern(s)
    ensures IsNumber(s) && !StartsWith(s, "=")
  {
    var n := if s[0] == '-' then 1 else 0;
    UnsignedPatternIsDecimal(s, n);
    StartsWithChar(s, '=');
    DecimalIsJavaDouble(s, n);
  }

  /** The unsigned part of the NUMBER pattern, from `n` on, is a decimal
      literal that starts and ends with a digit. */
  lemma UnsignedPatternIsDecimal(s: string, n: nat)
    requires n < |s| &&
      var b := s[n..];
      var k := SpanLen(b, IsAsciiDigit);
      k > 0 && (k == |b| || (b[k] == '.' && k + 1 < |b| && AllDigits(b[k + 1..])))
    ensures IsDecimalBody(s[n..]) && IsAsciiDigit(s[n]) && IsAsciiDigit(s[|s| - 1])
  {
    var b := s[n..];
    var k := SpanLen(b, IsAsciiDigit);
    var rest := b[k..];
    assert s[n] == b[0];
    if k < |b| {
      assert rest[1..] == b[k + 1..];
      SpanLenExact(rest[1..], IsAsciiDigit, |rest[1..]|);
      assert rest[1 + |rest[1..]|..] == [];
      assert s[|s| - 1] == b[k + 1..][|b| - k - 2];
    } else {
      assert rest == [];
      assert s[|s| - 1] == b[k - 1];
    }
  }

  // ------------------------------------------------------ static predicates

  /** `isNumber`: non-empty and accepted by `Double.parseDouble`. */
  predicate IsNumber(s: string) {
    s != [] && IsJavaDouble(s)
  }

  predicate IsOperatorChar(c: char) { c == '+' || c == '-' || c == '*' || c == '/' }
  predicate IsNonParen(c: char) { c != '(' && c != ')' }

  /** Where the operand of the formula pattern that starts at `i` ends: a
      letter and digits, digits with an optional fraction, or a
      parenthesised group. Each alternative has exactly one way to end in
      front of blanks, an operator or the end of the text, which is the
      longest one. */
  function OperandEnd(s: string, i: nat): (end: Option<nat>)
    requires i <= |s|
    ensures end.Some? ==> i < end.value <= |s|
  {
    if i == |s| then None
    else if IsAsciiLetter(s[i]) then
      var k := SpanLen(s[i + 1..], IsAsciiDigit);
      if k == 0 then None else Some(i + 1 + k)
    else if IsAsciiDigit(s[i]) then
      var j := i + SpanLen(s[i..], IsAsciiDigit);
      if j < |s| && s[j] == '.' then
        var f := SpanLen(s[j + 1..], IsAsciiDigit);
        if f == 0 then None else Some(j + 1 + f)
      else Some(j)
    else if s[i] == '(' then GroupEnd(s, i + 1)
    else None
  }

  /** The rest of a group whose `(` precedes `j`: any characters other than
      parentheses, and inner groups holding at least one such character,
      up to the first `)` at this level. */
  function GroupEnd(s: string, j: nat): (end: Option<nat>)
    requires j <= |s|
    ensures end.Some? ==> j < end.value <= |s|
    decreases |s| - j
  {
    if j == |s| then None
    else if s[j] == ')' then Some(j + 1)
    else if s[j] == '(' then
      var k := SpanLen(s[j + 1..], IsNonParen);
      if k > 0 && j + 1 + k < |s| && s[j + 1 + k] == ')' then GroupEnd(s, j + 2 + k) else None
    else GroupEnd(s, j + 1)
  }

  /** The text from `i` on is a sequence of blanks, an operator, blanks and
      an operand, repeated to the end. */
  predicate ChainFrom(s: string, i: nat)
    requires i <= |s|
    decreases |s| - i
  {
    if i == |s| then true
    else
      var k := i + SpanLen(s[i..], IsRegexSpace);
      k < |s| && IsOperatorChar(s[k]) &&
      var m := k + 1 + SpanLen(s[k + 1..], IsRegexSpace);
      match OperandEnd(s, m)
      case None => false
      case Some(j) => ChainFrom(s, j)
  }

  /** The whole text matches the formula pattern: `=`, an operand, then the
      chain. */
  predicate MatchesFormulaPattern(s: string) {
    |s| >= 1 && s[0] == '=' &&
    match OperandEnd(s, 1)
    case None => false
    case Some(j) => ChainFrom(s, j)
  }

  predicate HasAdjacentLetters(s: string) {
    exists k :: 0 <= k < |s| - 1 && IsAsciiLetter(s[k]) && IsAsciiLetter(s[k + 1])
  }

  predicate HasLineTerminator(s: string) {
    exists k :: 0 <= k < |s| && IsLineTerminator(s[k])
  }

  /** `s.matches(".*[a-zA-Z]{2,}.*")`: `.` matches no line terminator. */
  predicate MatchesLetterRun(s: string) {
    !HasLineTerminator(s) && HasAdjacentLetters(s)
  }

  /** `isFormula`: the pattern must match and the letter-run veto must not. */
  function IsFormula(s: string): (isValid: bool)
    ensures isValid ==> |s| >= 2 && s[0] == '=' && !MatchesLetterRun(s)
  {
    var isValid := MatchesFormulaPattern(s);
    if MatchesLetterRun(s) then false else isValid
  }

  function IsForm(s: string): (b: bool)
    ensures b ==> s != []
  {
    IsFormula(s) || IsNumber(s)
  }

  function IsText(s: string): (b: bool)
    ensures b <==> !IsForm(s)
  {
    !IsFormula(s) && !IsNumber(s)
  }

  function IsErr(s: string): (b: bool)
    ensures b ==> |s| >= 9 && s[|s| - 1] == '!'
  {
    s == Ex2Utils.ERR_FORM || s == Ex2Utils.ERR_CYCLE
  }

  // ----------------------------------------------------- recursive descent

  /** The exceptions `parseFactor` can throw: reading past the last
      character, and `Double.parseDouble` refusing a run. */
  datatype ParseError = IndexOutOfBounds | NumberFormat

  /** A value and where the shared cursor stands afterwards. */
  datatype Parsed = Parsed(value: Double, next: nat)

  /** What `parseExpression` computes from cursor `i`. */
  function ExprParse(cs: string, i: nat): (r: Result<Parsed, ParseError>)
    requires i <= |cs|
    ensures r.Success? ==> r.value.next > i
    decreases |cs| - i, 2
  {
    match TermParse(cs, i)
    case Failure(err) => Failure(err)
    case Success(first) => ExprLoop(cs, first.value, first.next)
  }

  /** The loop of `parseExpression` with `acc` computed and the cursor at `j`. */
  function ExprLoop(cs: string, acc: Double, j: nat): (r: Result<Parsed, ParseError>)
    ensures r.Success? ==> r.value.next >= j
    decreases |cs| - j, 3
  {
    if j < |cs| && (cs[j] == '+' || cs[j] == '-') then
      match TermParse(cs, j + 1)
      case Failure(err) => Failure(err)
      case Success(term) =>
        ExprLoop(cs, if cs[j] == '+' then DAdd(acc, term.value) else DSub(acc, term.value), term.next)
    else Success(Parsed(acc, j))
  }

  function TermParse(cs: string, i: nat): (r: Result<Parsed, ParseError>)
    requires i <= |cs|
    ensures r.Success? ==> r.value.next > i
    decreases |cs| - i, 1
  {
    match FactorParse(cs, i)
    case Failure(err) => Failure(err)
    case Success(first) => TermLoop(cs, first.value, first.next)
  }

  function TermLoop(cs: string, acc: Double, j: nat): (r: Result<Parsed, ParseError>)
    ensures r.Success? ==> r.value.next >= j
    decreases |cs| - j, 3
  {
    if j < |cs| && (cs[j] == '*' || cs[j] == '/') then
      match FactorParse(cs, j + 1)
      case Failure(err) => Failure(err)
      case Success(factor) =>
        TermLoop(cs, if cs[j] == '*' then DMul(acc, factor.value) else DDiv(acc, factor.value), factor.next)
    else Success(Parsed(acc, j))
  }

  /** What `parseFactor` computes: a group, whose closing character is
      skipped unread, or the run of digits and dots at the cursor. */
  function FactorParse(cs: string, i: nat): (r: Result<Parsed, ParseError>)
    requires i <= |cs|
    ensures r.Success? ==> r.value.next > i
    decreases |cs| - i, 0
  {
    if i == |cs| then Failure(IndexOutOfBounds)
    else if cs[i] == '(' then
      match ExprParse(cs, i + 1)
      case Failure(err) => Failure(err)
      case Success(inner) => Success(Parsed(inner.value, inner.next + 1))
    else NumberAt(cs, i)
  }

  /** `Double.parseDouble` of the run of digits and dots at the cursor,
      with the cursor after the run. */
  function NumberAt(cs: string, i: nat): (r: Result<Parsed, ParseError>)
    requires i <= |cs|
    ensures r.Success? ==> r.value.next > i
  {
    var run := cs[i..RunEnd(cs, i)];
    assert forall k :: 0 <= k < |run| ==> IsNumberChar(run[k]) by {
      forall k | 0 <= k < |run| ensures IsNumberChar(run[k]) { assert run[k] == cs[i + k]; }
    }
    match ParseDecimalRun(run)
    case None => Failure(NumberFormat)
    case Some(v) => Success(Parsed(Finite(v), i + |run|))
  }

  /** `parseExpression`: a term, then further terms while the cursor stands
      on `+` or `-`. */
  method ParseExpression(cs: string, index: nat) returns (r: Result<Parsed, ParseError>)
    requires index <= |cs|
    ensures r == ExprParse(cs, index)
    decreases |cs| - index, 2
  {
    var first := ParseTerm(cs, index);
    if first.Failure? {
      return Failure(first.error);
    }
    var result := first.value.value;
    var i := first.value.next;
    while i < |cs|
      invariant i > index
      invariant ExprLoop(cs, result, i) == ExprParse(cs, index)
      decreases |cs| - i
    {
      var operator := cs[i];
      if operator == '+' || operator == '-' {
        i := i + 1;
        var term := ParseTerm(cs, i);
        if term.Failure? {
          return Failure(term.error);
        }
        result := if operator == '+' then DAdd(result, term.value.value) else DSub(result, term.value.value);
        i := term.value.next;
      } else {
        break;
      }
    }
    return Success(Parsed(result, i));
  }

  /** `parseTerm`: a factor, then further factors while the cursor stands on
      `*` or `/`; a zero divisor gives Java's non-finite quotient. */
  method ParseTerm(cs: string, index: nat) returns (r: Result<Parsed, ParseError>)
    requires index <= |cs|
    ensures r == TermParse(cs, index)
    decreases |cs| - index, 1
  {
    var first := ParseFactor(cs, index);
    if first.Failure? {
      return Failure(first.error);
    }
    var result := first.value.value;
    var i := first.value.next;
    while i < |cs|
      invariant i > index
      invariant TermLoop(cs, result, i) == TermParse(cs, index)
      decreases |cs| - i
    {
      var operator := cs[i];
      if operator == '*' || operator == '/' {
        i := i + 1;
        var factor := ParseFactor(cs, i);
        if factor.Failure? {
          return Failure(factor.error);
        }
        result := if operator == '*' then DMul(result, factor.value.value) else DDiv(result, factor.value.value);
        i := factor.value.next;
      } else {
        break;
      }
    }
    return Success(Parsed(result, i));
  }

  /** `parseFactor`. */
  method ParseFactor(cs: string, index: nat) returns (r: Result<Parsed, ParseError>)
    requires index <= |cs|
    ensures r == FactorParse(cs, index)
    decreases |cs| - index, 0
  {
    if index == |cs| {
      return Failure(IndexOutOfBounds);
    }
    if cs[index] == '(' {
      var inner := ParseExpression(cs, index + 1);
      if inner.Failure? {
        return Failure(inner.error);
      }
      return Success(Parsed(inner.value.value, inner.value.next + 1));
    }
    var i := index;
    while i < |cs| && IsNumberChar(cs[i])
      invariant index <= i <= |cs|
      invariant RunEnd(cs, i) == RunEnd(cs, index)
      decreases |cs| - i
    {
      i := i + 1;
    }
    var run := cs[index..i];
    match ParseDecimalRun(run)
    case None =>
      return Failure(NumberFormat);
    case Some(v) =>
      return Success(Parsed(Finite(v), i));
  }

  // ---------------------------------------------------------- computeForm

  /** How `computeForm` ends: `ERR_FORM`, or the text of a double. */
  datatype FormOutcome = FormErr | FormOk(d: Double)

  /** `computeForm` before rendering: not a formula, or any exception while
      evaluating what follows the `=`, is an error; characters after the
      point where the descent stops are ignored. */
  function FormValue(formula: string): (o: FormOutcome)
    ensures o.FormOk? ==> IsFormula(formula) && ExprParse(formula[1..], 0).Success?
  {
    if !IsFormula(formula) then FormErr
    else
      match ExprParse(formula[1..], 0)
      case Failure(_) => FormErr
      case Success(p) => FormOk(p.value)
  }

  /** `computeForm`, with `String.valueOf(double)` as `render`. */
  function FormText(render: Double -> string, formula: string): (s: string)
    ensures FormValue(formula) == FormErr ==> s == Ex2Utils.ERR_FORM
  {
    match FormValue(formula)
    case FormErr => Ex2Utils.ERR_FORM
    case FormOk(d) => render(d)
  }

  method ComputeFormValue(formula: string) returns (o: FormOutcome)
    ensures o == FormValue(formula)
  {
    if !IsFormula(formula) {
      return FormErr;
    }
    var expression := formula[1..];
    var result := ParseExpression(expression, 0);
    if result.Failure? {
      return FormErr;
    }
    return FormOk(result.value.value);
  }

  /** `computeForm`. */
  method ComputeForm(render: Double -> string, formula: string) returns (s: string)
    ensures s == FormText(render, formula)
  {
    var o := ComputeFormValue(formula);
    match o
    case FormErr =>
      return Ex2Utils.ERR_FORM;
    case FormOk(d) =>
      return render(d);
  }
}
