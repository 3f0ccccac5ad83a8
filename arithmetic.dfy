/** The arithmetic both formula evaluators read: sums of products of number
    literals and parenthesised sub-expressions, with `*` and `/` binding
    tighter than `+` and `-` and operators of equal precedence grouping to
    the left. The trees are left-recursive so that `Print` writes exactly
    the text a user types, and `Value` is the reference meaning of that
    text in exact arithmetic over `Double`. */
module Arithmetic {
  import opened JavaLang

  datatype AddOp = Plus | Minus
  datatype MulOp = Times | Over

  datatype Expr = Single(term: Term) | Add(left: Expr, addOp: AddOp, right: Term)
  datatype Term = Factor(factor: Factor) | Mul(left: Term, mulOp: MulOp, right: Factor)
  datatype Factor = Lit(text: string) | Group(inner: Expr)

  function AddChar(op: AddOp): (c: char)
    ensures c == '+' || c == '-'
  {
    match op
    case Plus => '+'
    case Minus => '-'
  }

  function MulChar(op: MulOp): (c: char)
    ensures c == '*' || c == '/'
  {
    match op
    case Times => '*'
    case Over => '/'
  }

  /** The characters a printed expression is made of. */
  predicate IsPrintChar(c: char) {
    IsNumberChar(c) || c == '(' || c == ')' || c == '+' || c == '-' || c == '*' || c == '/'
  }

  predicate AllPrintChars(s: string) {
    forall k :: 0 <= k < |s| ==> IsPrintChar(s[k])
  }

  /** A literal is a run of digits and dots that `Double.parseDouble`
      accepts: at most one dot and at least one digit. */
  predicate WellFormedLit(text: string) {
    IsDecimalRun(text)
  }

  predicate WellFormed(e: Expr) {
    match e
    case Single(t) => WellFormedTerm(t)
    case Add(l, _, r) => WellFormed(l) && WellFormedTerm(r)
  }

  predicate WellFormedTerm(t: Term) {
    match t
    case Factor(f) => WellFormedFactor(f)
    case Mul(l, _, r) => WellFormedTerm(l) && WellFormedFactor(r)
  }

  predicate WellFormedFactor(f: Factor) {
    match f
    case Lit(text) => WellFormedLit(text)
    case Group(e) => WellFormed(e)
  }

  /** The length of an expression's text. */
  function Len(e: Expr): nat {
    match e
    case Single(t) => TermLen(t)
    case Add(l, _, r) => Len(l) + 1 + TermLen(r)
  }

  function TermLen(t: Term): nat {
    match t
    case Factor(f) => FactorLen(f)
    case Mul(l, _, r) => TermLen(l) + 1 + FactorLen(r)
  }

  function FactorLen(f: Factor): nat {
    match f
    case Lit(text) => |text|
    case Group(e) => Len(e) + 2
  }

  /** The text of an expression, without blanks. It starts with the first
      character of its leftmost factor: a digit, a dot or `(`. */
  function Print(e: Expr): (s: string)
    requires WellFormed(e)
    ensures |s| == Len(e)
    ensures s != [] && (IsNumberChar(s[0]) || s[0] == '(')
  {
    match e
    case Single(t) => PrintTerm(t)
    case Add(l, op, r) => Print(l) + [AddChar(op)] + PrintTerm(r)
  }

  function PrintTerm(t: Term): (s: string)
    requires WellFormedTerm(t)
    ensures |s| == TermLen(t)
    ensures s != [] && (IsNumberChar(s[0]) || s[0] == '(')
  {
    match t
    case Factor(f) => PrintFactor(f)
    case Mul(l, op, r) => PrintTerm(l) + [MulChar(op)] + PrintFactor(r)
  }

  function PrintFactor(f: Factor): (s: string)
    requires WellFormedFactor(f)
    ensures |s| == FactorLen(f)
    ensures s != [] && (IsNumberChar(s[0]) || s[0] == '(')
  {
    match f
    case Lit(text) => text
    case Group(e) => ['('] + Print(e) + [')']
  }

  /** The value of an expression; a division by zero anywhere makes the
      whole value non-finite. */
  function Value(e: Expr): Double
    requires WellFormed(e)
  {
    match e
    case Single(t) => TermValue(t)
    case Add(l, op, r) =>
      if op == Plus then DAdd(Value(l), TermValue(r)) else DSub(Value(l), TermValue(r))
  }

  function TermValue(t: Term): Double
    requires WellFormedTerm(t)
  {
    match t
    case Factor(f) => FactorValue(f)
    case Mul(l, op, r) =>
      if op == Times then DMul(TermValue(l), FactorValue(r)) else DDiv(TermValue(l), FactorValue(r))
  }

  function FactorValue(f: Factor): Double
    requires WellFormedFactor(f)
  {
    match f
    case Lit(text) => Finite(ParseDecimalRun(text).value)
    case Group(e) => Value(e)
  }

  // ------------------------------------------- where printed text stands

  /** `p` stands in `cs` from position `i` on. */
  predicate Occurs(cs: string, i: nat, p: string) {
    i + |p| <= |cs| && cs[i..i + |p|] == p
  }

  /** Position `j` does not continue a number literal. */
  predicate EndsLiteral(cs: string, j: nat) {
    j >= |cs| || !IsNumberChar(cs[j])
  }

  /** Position `j` does not continue a number literal or a product. */
  predicate EndsTerm(cs: string, j: nat) {
    EndsLiteral(cs, j) && (j >= |cs| || (cs[j] != '*' && cs[j] != '/'))
  }

  /** Splits an occurrence of `a + [c] + b` into its three parts. */
  lemma OccursSplit(cs: string, i: nat, a: string, c: char, b: string)
    requires Occurs(cs, i, a + [c] + b)
    ensures Occurs(cs, i, a) && cs[i + |a|] == c && Occurs(cs, i + |a| + 1, b)
  {
    var p := a + [c] + b;
    assert cs[i..i + |a|] == p[..|a|];
    assert cs[i + |a|] == p[|a|];
    assert cs[i + |a| + 1..i + |p|] == p[|a| + 1..];
  }

  /** The text of `e` stands in `cs` from `i` on, stated piece by piece. */
  predicate ExprAt(cs: string, i: nat, e: Expr)
    decreases e, 2
  {
    match e
    case Single(t) => TermAt(cs, i, t)
    case Add(l, op, r) =>
      var j := i + Len(l);
      ExprAt(cs, i, l) && j < |cs| && cs[j] == AddChar(op) && TermAt(cs, j + 1, r)
  }

  predicate TermAt(cs: string, i: nat, t: Term)
    decreases t, 1
  {
    match t
    case Factor(f) => FactorAt(cs, i, f)
    case Mul(l, op, r) =>
      var j := i + TermLen(l);
      TermAt(cs, i, l) && j < |cs| && cs[j] == MulChar(op) && FactorAt(cs, j + 1, r)
  }

  predicate FactorAt(cs: string, i: nat, f: Factor)
    decreases f, 0
  {
    match f
    case Lit(text) => Occurs(cs, i, text)
    case Group(e) =>
      var j := i + 1 + Len(e);
      i < |cs| && cs[i] == '(' && ExprAt(cs, i + 1, e) && j < |cs| && cs[j] == ')'
  }

  lemma {:induction false} OccursExprAt(cs: string, i: nat, e: Expr)
    requires WellFormed(e) && Occurs(cs, i, Print(e))
    ensures ExprAt(cs, i, e) && i + Len(e) <= |cs|
    decreases e, 2, 1
  {
    match e
    case Single(t) => OccursTermAt(cs, i, t);
    case Add(l, op, r) => OccursAddAt(cs, i, l, op, r);
  }

  lemma {:induction false} OccursAddAt(cs: string, i: nat, l: Expr, op: AddOp, r: Term)
    requires WellFormed(Add(l, op, r)) && Occurs(cs, i, Print(Add(l, op, r)))
    ensures ExprAt(cs, i, Add(l, op, r)) && i + Len(Add(l, op, r)) <= |cs|
    decreases Add(l, op, r), 2, 0
  {
    OccursSplit(cs, i, Print(l), AddChar(op), PrintTerm(r));
    OccursExprAt(cs, i, l);
    OccursTermAt(cs, i + Len(l) + 1, r);
  }

  lemma {:induction false} OccursTermAt(cs: string, i: nat, t: Term)
    requires WellFormedTerm(t) && Occurs(cs, i, PrintTerm(t))
    ensures TermAt(cs, i, t) && i + TermLen(t) <= |cs|
    decreases t, 1, 1
  {
    match t
    case Factor(f) => OccursFactorAt(cs, i, f);
    case Mul(l, op, r) => OccursMulAt(cs, i, l, op, r);
  }

  lemma {:induction false} OccursMulAt(cs: string, i: nat, l: Term, op: MulOp, r: Factor)
    requires WellFormedTerm(Mul(l, op, r)) && Occurs(cs, i, PrintTerm(Mul(l, op, r)))
    ensures TermAt(cs, i, Mul(l, op, r)) && i + TermLen(Mul(l, op, r)) <= |cs|
    decreases Mul(l, op, r), 1, 0
  {
    OccursSplit(cs, i, PrintTerm(l), MulChar(op), PrintFactor(r));
    OccursTermAt(cs, i, l);
    OccursFactorAt(cs, i + TermLen(l) + 1, r);
  }

  lemma {:induction false} OccursFactorAt(cs: string, i: nat, f: Factor)
    requires WellFormedFactor(f) && Occurs(cs, i, PrintFactor(f))
    ensures FactorAt(cs, i, f) && i + FactorLen(f) <= |cs|
    decreases f, 0, 1
  {
    match f
    case Lit(text) =>
    case Group(e) => OccursGroupAt(cs, i, e);
  }

  lemma {:induction false} OccursGroupAt(cs: string, i: nat, e: Expr)
    requires WellFormed(e) && Occurs(cs, i, PrintFactor(Group(e)))
    ensures FactorAt(cs, i, Group(e)) && i + FactorLen(Group(e)) <= |cs|
    decreases Group(e), 0, 0
  {
    OccursSplit(cs, i, ['('] + Print(e), ')', []);
    OccursSplit(cs, i, [], '(', Print(e));
    OccursExprAt(cs, i + 1, e);
  }

  /** The text of `e` stands in `cs` from `i` on and is not followed by a
      digit or a dot, so its last literal ends where the text does. */
  predicate ExprSpans(cs: string, i: nat, e: Expr) {
    WellFormed(e) && ExprAt(cs, i, e) && i + Len(e) <= |cs| && EndsLiteral(cs, i + Len(e))
  }

  predicate TermSpans(cs: string, i: nat, t: Term) {
    WellFormedTerm(t) && TermAt(cs, i, t) && i + TermLen(t) <= |cs| && EndsLiteral(cs, i + TermLen(t))
  }

  predicate FactorSpans(cs: string, i: nat, f: Factor) {
    WellFormedFactor(f) && FactorAt(cs, i, f) && i + FactorLen(f) <= |cs| && EndsLiteral(cs, i + FactorLen(f))
  }

  lemma SpansOfOccurs(cs: string, i: nat, e: Expr)
    requires WellFormed(e) && Occurs(cs, i, Print(e)) && EndsLiteral(cs, i + |Print(e)|)
    ensures ExprSpans(cs, i, e)
  {
    OccursExprAt(cs, i, e);
  }

  /** The parts of a sum that spans `cs` from `i`. */
  lemma AddSpans(l: Expr, op: AddOp, r: Term, cs: string, i: nat)
    requires ExprSpans(cs, i, Add(l, op, r))
    ensures ExprSpans(cs, i, l) && i + Len(l) < |cs| && cs[i + Len(l)] == AddChar(op)
    ensures TermSpans(cs, i + Len(l) + 1, r)
    ensures i + Len(Add(l, op, r)) == i + Len(l) + 1 + TermLen(r)
  {
  }

  /** The parts of a product that spans `cs` from `i`. */
  lemma MulSpans(l: Term, op: MulOp, r: Factor, cs: string, i: nat)
    requires TermSpans(cs, i, Mul(l, op, r))
    ensures TermSpans(cs, i, l) && i + TermLen(l) < |cs| && cs[i + TermLen(l)] == MulChar(op)
    ensures FactorSpans(cs, i + TermLen(l) + 1, r)
    ensures i + TermLen(Mul(l, op, r)) == i + TermLen(l) + 1 + FactorLen(r)
  {
  }

  /** The inside of a group that spans `cs` from `i`. */
  lemma GroupSpans(e: Expr, cs: string, i: nat)
    requires FactorSpans(cs, i, Group(e))
    ensures ExprSpans(cs, i + 1, e) && cs[i] == '(' && cs[i + 1 + Len(e)] == ')'
    ensures i + FactorLen(Group(e)) == i + 1 + Len(e) + 1
  {
  }
}
