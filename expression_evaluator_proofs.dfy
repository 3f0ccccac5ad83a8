/** The shunting-yard evaluator computes the value of every printed
    arithmetic expression, with `*` and `/` binding tighter than `+` and
    `-`, equal precedence grouping to the left and parentheses overriding
    both; a division by zero anywhere is an error. */
module EvaluatorProofs {
  import opened Common
  import opened JavaLang
  import opened Arithmetic
  import opened ExpressionEvaluator

  /** What the evaluator returns for an expression whose exact value is
      `d`: the value, or the division-by-zero error. */
  function Outcome(d: Double): Result<real, EvalError> {
    if d.Finite? then Success(d.v) else Failure(DivisionByZero)
  }

  function PushNum(st: Stacks, v: real): Stacks {
    Stacks(st.nums + [v], st.ops)
  }

  function PushOp(st: Stacks, c: char): Stacks {
    Stacks(st.nums, st.ops + [c])
  }

  function Push(st: Stacks, p: Stacks): Stacks {
    Stacks(st.nums + p.nums, st.ops + p.ops)
  }

  /** The operator stack's top does not make an incoming `*` or `/`
      reduce: a term can be read on top of it. */
  predicate TermTop(ops: seq<char>) {
    ops == [] || Precedence(ops[|ops| - 1]) < 2
  }

  /** The operator stack's top does not make an incoming `+` or `-`
      reduce: `(`, or nothing. */
  predicate ExprTop(ops: seq<char>) {
    ops == [] || Precedence(ops[|ops| - 1]) < 1
  }

  /** A reducing loop that goes on over every operator of precedence `p`
      or more. */
  predicate Reduces(u: Until, p: int) {
    u.UntilParen? || u.UntilEmpty? || (u.Below? && u.prec <= p)
  }

  /** What reading a term leaves on the stacks before its last operator is
      applied: its value, or for a product the values of both operands and
      the operator. */
  function TermPending(t: Term): Result<Stacks, EvalError>
    requires WellFormedTerm(t)
  {
    match t
    case Factor(f) =>
      if FactorValue(f).Finite? then Success(Stacks([FactorValue(f).v], [])) else Failure(DivisionByZero)
    case Mul(l, op, r) =>
      if TermValue(l).Finite? && FactorValue(r).Finite? then
        Success(Stacks([TermValue(l).v, FactorValue(r).v], [MulChar(op)]))
      else Failure(DivisionByZero)
  }

  /** What reading an expression leaves on the stacks: the value of all but
      its last term, its last operator and what the last term leaves. */
  function ExprPending(e: Expr): Result<Stacks, EvalError>
    requires WellFormed(e)
  {
    match e
    case Single(t) => TermPending(t)
    case Add(l, op, r) =>
      if Value(l).Finite? && TermPending(r).Success? then
        Success(Stacks([Value(l).v] + TermPending(r).value.nums, [AddChar(op)] + TermPending(r).value.ops))
      else Failure(DivisionByZero)
  }

  // ---------------------------------------------------------- reductions

  /** `applyOperation` agrees with exact arithmetic on `Double`. */
  lemma ApplyAdd(op: AddOp, x: Double, y: Double)
    requires x.Finite? && y.Finite?
    ensures Apply(AddChar(op), y.v, x.v) == Outcome(if op == Plus then DAdd(x, y) else DSub(x, y))
  {
  }

  lemma ApplyMul(op: MulOp, x: Double, y: Double)
    requires x.Finite? && y.Finite?
    ensures Apply(MulChar(op), y.v, x.v) == Outcome(if op == Times then DMul(x, y) else DDiv(x, y))
  {
    var r := Apply(MulChar(op), y.v, x.v);
    if op == Times {
      assert r.Success? && r.value == x.v * y.v;
      assert DMul(x, y) == Finite(x.v * y.v);
      var o := Outcome(DMul(x, y));
      assert o.Success? && o.value == x.v * y.v;
    } else if y.v != 0.0 {
      assert r.Success? && r.value == x.v / y.v;
    }
  }

  /** One reduction of the two topmost numbers by the topmost operator. */
  lemma ReduceTop(base: Stacks, a: real, b: real, op: char)
    ensures Reduce(Stacks(base.nums + [a, b], base.ops + [op])) ==
      (match Apply(op, b, a)
       case Failure(err) => Failure(err)
       case Success(v) => Success(PushNum(base, v)))
  {
    var st := Stacks(base.nums + [a, b], base.ops + [op]);
    assert st.nums[..|st.nums| - 2] == base.nums;
    assert st.ops[..|st.ops| - 1] == base.ops;
  }

  /** A reducing loop folds what a term left into the term's value. */
  lemma TermFlush(t: Term, base: Stacks, u: Until)
    requires WellFormedTerm(t) && TermPending(t).Success? && Reduces(u, 2)
    ensures ReduceWhile(Push(base, TermPending(t).value), u) ==
      if TermValue(t).Finite? then ReduceWhile(PushNum(base, TermValue(t).v), u) else Failure(DivisionByZero)
  {
    match t
    case Factor(f) =>
      assert Push(base, TermPending(t).value) == PushNum(base, FactorValue(f).v);
    case Mul(l, op, r) =>
      var a := TermValue(l).v;
      var b := FactorValue(r).v;
      var st := Push(base, TermPending(t).value);
      assert st == Stacks(base.nums + [a, b], base.ops + [MulChar(op)]);
      assert !Halts(u, st.ops);
      ReduceTop(base, a, b, MulChar(op));
      ApplyMul(op, TermValue(l), FactorValue(r));
  }

  /** A reducing loop folds what an expression left into its value. */
  lemma ExprFlush(e: Expr, base: Stacks, u: Until)
    requires WellFormed(e) && ExprPending(e).Success? && Reduces(u, 1)
    ensures ReduceWhile(Push(base, ExprPending(e).value), u) ==
      if Value(e).Finite? then ReduceWhile(PushNum(base, Value(e).v), u) else Failure(DivisionByZero)
  {
    match e
    case Single(t) =>
      TermFlush(t, base, u);
    case Add(l, op, r) =>
      var a := Value(l).v;
      var pr := TermPending(r).value;
      var base2 := Stacks(base.nums + [a], base.ops + [AddChar(op)]);
      assert Push(base, ExprPending(e).value) == Push(base2, pr);
      TermFlush(r, base2, u);
      if TermValue(r).Finite? {
        var b := TermValue(r).v;
        assert PushNum(base2, b) == Stacks(base.nums + [a, b], base.ops + [AddChar(op)]);
        assert !Halts(u, base2.ops);
        ReduceTop(base, a, b, AddChar(op));
        ApplyAdd(op, Value(l), TermValue(r));
      }
  }

  /** When reading a term or expression fails, its value is not finite. */
  lemma TermPendingFails(t: Term)
    requires WellFormedTerm(t) && TermPending(t).Failure?
    ensures !TermValue(t).Finite? && TermPending(t) == Failure(DivisionByZero)
  {
  }

  lemma ExprPendingFails(e: Expr)
    requires WellFormed(e) && ExprPending(e).Failure?
    ensures !Value(e).Finite? && ExprPending(e) == Failure(DivisionByZero)
  {
    match e
    case Single(t) =>
      TermPendingFails(t);
    case Add(l, op, r) =>
      if TermPending(r).Failure? {
        TermPendingFails(r);
      }
  }

  /** A reducing loop for an incoming operator stops at once above a
      stack top that binds less tightly. */
  lemma HaltsBelow(st: Stacks, v: real, p: int)
    requires st.ops == [] || Precedence(st.ops[|st.ops| - 1]) < p
    ensures ReduceWhile(PushNum(st, v), Below(p)) == Success(PushNum(st, v))
  {
  }

  /** The stacks after the second operand of a product are what the
      product leaves. */
  lemma PushMul(l: Term, op: MulOp, r: Factor, st: Stacks)
    requires WellFormedTerm(Mul(l, op, r)) && TermPending(Mul(l, op, r)).Success?
    ensures PushNum(PushOp(PushNum(st, TermValue(l).v), MulChar(op)), FactorValue(r).v) ==
      Push(st, TermPending(Mul(l, op, r)).value)
  {
  }

  /** The stacks after the last term of a sum are what the sum leaves. */
  lemma PushAdd(l: Expr, op: AddOp, r: Term, st: Stacks)
    requires WellFormed(Add(l, op, r)) && ExprPending(Add(l, op, r)).Success?
    ensures Push(PushOp(PushNum(st, Value(l).v), AddChar(op)), TermPending(r).value) ==
      Push(st, ExprPending(Add(l, op, r)).value)
  {
    var pr := TermPending(r).value;
    assert (st.nums + [Value(l).v]) + pr.nums == st.nums + ([Value(l).v] + pr.nums);
    assert (st.ops + [AddChar(op)]) + pr.ops == st.ops + ([AddChar(op)] + pr.ops);
  }

  // ------------------------------------------------------------- machine

  /** One turn of the main loop on an operator. */
  lemma OperatorTurn(s: string, j: nat, st: Stacks)
    requires j < |s| && IsOperator(s[j])
    ensures Run(s, j, st) ==
      match ReduceWhile(st, Below(Precedence(s[j])))
      case Failure(err) => Failure(err)
      case Success(next) => Run(s, j + 1, PushOp(next, s[j]))
  {
  }

  /** One turn of the main loop on `(`. */
  lemma OpenTurn(s: string, j: nat, st: Stacks)
    requires j < |s| && s[j] == '('
    ensures Run(s, j, st) == Run(s, j + 1, PushOp(st, '('))
  {
  }

  /** One turn of the main loop on `)`. */
  lemma CloseTurn(s: string, j: nat, st: Stacks)
    requires j < |s| && s[j] == ')'
    ensures Run(s, j, st) ==
      match ReduceWhile(st, UntilParen)
      case Failure(err) => Failure(err)
      case Success(next) =>
        if next.ops == [] then Failure(EmptyStack)
        else Run(s, j + 1, Stacks(next.nums, next.ops[..|next.ops| - 1]))
  {
  }

  /** The main loop pushes a literal's value and moves past it. */
  lemma LiteralRun(text: string, s: string, i: nat, st: Stacks)
    requires WellFormedLit(text) && Occurs(s, i, text) && EndsLiteral(s, i + |text|)
    ensures Run(s, i, st) == Run(s, i + |text|, PushNum(st, ParseDecimalRun(text).value))
  {
    assert s[i] == text[0];
    RunEndOf(s, i, i + |text|);
    assert s[i..i + |text|] == text;
  }

  /** `)` after what an expression left: the expression is folded, the
      `(` below it popped, and the loop goes on. */
  lemma CloseStep(e: Expr, s: string, j: nat, st: Stacks)
    requires WellFormed(e) && ExprPending(e).Success? && j < |s| && s[j] == ')'
    ensures Run(s, j, Push(PushOp(st, '('), ExprPending(e).value)) ==
      if Value(e).Finite? then Run(s, j + 1, PushNum(st, Value(e).v)) else Failure(DivisionByZero)
  {
    CloseTurn(s, j, Push(PushOp(st, '('), ExprPending(e).value));
    ExprFlush(e, PushOp(st, '('), UntilParen);
    if Value(e).Finite? {
      var inner := PushNum(PushOp(st, '('), Value(e).v);
      assert ReduceWhile(inner, UntilParen) == Success(inner);
      assert inner.ops[..|inner.ops| - 1] == st.ops;
    }
  }

  /** `*` or `/` after what a term left: the term is folded and the
      operator pushed. */
  lemma MulStep(l: Term, op: MulOp, s: string, j: nat, st: Stacks)
    requires WellFormedTerm(l) && TermPending(l).Success? && TermTop(st.ops)
    requires j < |s| && s[j] == MulChar(op)
    ensures Run(s, j, Push(st, TermPending(l).value)) ==
      if TermValue(l).Finite? then Run(s, j + 1, PushOp(PushNum(st, TermValue(l).v), MulChar(op)))
      else Failure(DivisionByZero)
  {
    OperatorTurn(s, j, Push(st, TermPending(l).value));
    TermFlush(l, st, Below(2));
    if TermValue(l).Finite? {
      HaltsBelow(st, TermValue(l).v, 2);
    }
  }

  /** `+` or `-` after what an expression left: the expression is folded
      and the operator pushed. */
  lemma AddStep(l: Expr, op: AddOp, s: string, j: nat, st: Stacks)
    requires WellFormed(l) && ExprPending(l).Success? && ExprTop(st.ops)
    requires j < |s| && s[j] == AddChar(op)
    ensures Run(s, j, Push(st, ExprPending(l).value)) ==
      if Value(l).Finite? then Run(s, j + 1, PushOp(PushNum(st, Value(l).v), AddChar(op)))
      else Failure(DivisionByZero)
  {
    OperatorTurn(s, j, Push(st, ExprPending(l).value));
    ExprFlush(l, st, Below(1));
    if Value(l).Finite? {
      HaltsBelow(st, Value(l).v, 1);
    }
  }

  /** Reading a factor pushes its value, whatever the stacks hold. */
  lemma {:induction false} FactorMachine(f: Factor, s: string, i: nat, st: Stacks)
    requires FactorSpans(s, i, f)
    ensures Run(s, i, st) ==
      if FactorValue(f).Finite? then Run(s, i + FactorLen(f), PushNum(st, FactorValue(f).v))
      else Failure(DivisionByZero)
    decreases f, 0, 1
  {
    match f
    case Lit(text) =>
      LiteralRun(text, s, i, st);
    case Group(e) =>
      GroupMachine(e, s, i, st);
  }

  lemma {:induction false} GroupMachine(e: Expr, s: string, i: nat, st: Stacks)
    requires FactorSpans(s, i, Group(e))
    ensures Run(s, i, st) ==
      if Value(e).Finite? then Run(s, i + FactorLen(Group(e)), PushNum(st, Value(e).v))
      else Failure(DivisionByZero)
    decreases Group(e), 0, 0
  {
    GroupSpans(e, s, i);
    var open := PushOp(st, '(');
    assert Run(s, i, st) == Run(s, i + 1, open);
    ExprMachine(e, s, i + 1, open);
    if ExprPending(e).Success? {
      CloseStep(e, s, i + 1 + Len(e), st);
    } else {
      ExprPendingFails(e);
    }
  }

  /** Reading a term on top of `(`, `+`, `-` or nothing leaves what
      `TermPending` says. */
  lemma {:induction false} TermMachine(t: Term, s: string, i: nat, st: Stacks)
    requires TermSpans(s, i, t) && TermTop(st.ops)
    ensures Run(s, i, st) ==
      match TermPending(t)
      case Failure(err) => Failure(err)
      case Success(p) => Run(s, i + TermLen(t), Push(st, p))
    decreases t, 1, 1
  {
    match t
    case Factor(f) =>
      FactorMachine(f, s, i, st);
      if FactorValue(f).Finite? {
        assert Push(st, TermPending(t).value) == PushNum(st, FactorValue(f).v);
      }
    case Mul(l, op, r) =>
      MulMachine(l, op, r, s, i, st);
  }

  lemma {:induction false} MulMachine(l: Term, op: MulOp, r: Factor, s: string, i: nat, st: Stacks)
    requires TermSpans(s, i, Mul(l, op, r)) && TermTop(st.ops)
    ensures Run(s, i, st) ==
      match TermPending(Mul(l, op, r))
      case Failure(err) => Failure(err)
      case Success(p) => Run(s, i + TermLen(Mul(l, op, r)), Push(st, p))
    decreases Mul(l, op, r), 1, 0
  {
    MulSpans(l, op, r, s, i);
    TermMachine(l, s, i, st);
    if TermPending(l).Failure? {
      TermPendingFails(l);
    } else if !TermValue(l).Finite? {
      MulStep(l, op, s, i + TermLen(l), st);
    } else {
      MulOperand(l, op, r, s, i, st);
    }
  }

  /** The rest of a product once its left operand is read: the operator,
      then the right operand. */
  lemma {:induction false} MulOperand(l: Term, op: MulOp, r: Factor, s: string, i: nat, st: Stacks)
    requires TermSpans(s, i, Mul(l, op, r)) && TermTop(st.ops)
    requires TermPending(l).Success? && TermValue(l).Finite?
    ensures Run(s, i + TermLen(l), Push(st, TermPending(l).value)) ==
      match TermPending(Mul(l, op, r))
      case Failure(err) => Failure(err)
      case Success(p) => Run(s, i + TermLen(Mul(l, op, r)), Push(st, p))
    decreases Mul(l, op, r), 0, 0
  {
    MulSpans(l, op, r, s, i);
    var j := i + TermLen(l);
    MulStep(l, op, s, j, st);
    var st2 := PushOp(PushNum(st, TermValue(l).v), MulChar(op));
    FactorMachine(r, s, j + 1, st2);
    if FactorValue(r).Finite? {
      PushMul(l, op, r, st);
    }
  }

  /** Reading an expression on top of `(` or nothing leaves what
      `ExprPending` says. */
  lemma {:induction false} ExprMachine(e: Expr, s: string, i: nat, st: Stacks)
    requires ExprSpans(s, i, e) && ExprTop(st.ops)
    ensures Run(s, i, st) ==
      match ExprPending(e)
      case Failure(err) => Failure(err)
      case Success(p) => Run(s, i + Len(e), Push(st, p))
    decreases e, 2, 1
  {
    match e
    case Single(t) =>
      TermMachine(t, s, i, st);
    case Add(l, op, r) =>
      AddMachine(l, op, r, s, i, st);
  }

  lemma {:induction false} AddMachine(l: Expr, op: AddOp, r: Term, s: string, i: nat, st: Stacks)
    requires ExprSpans(s, i, Add(l, op, r)) && ExprTop(st.ops)
    ensures Run(s, i, st) ==
      match ExprPending(Add(l, op, r))
      case Failure(err) => Failure(err)
      case Success(p) => Run(s, i + Len(Add(l, op, r)), Push(st, p))
    decreases Add(l, op, r), 2, 0
  {
    AddSpans(l, op, r, s, i);
    ExprMachine(l, s, i, st);
    if ExprPending(l).Failure? {
      ExprPendingFails(l);
    } else if !Value(l).Finite? {
      AddStep(l, op, s, i + Len(l), st);
    } else {
      AddOperand(l, op, r, s, i, st);
    }
  }

  /** The rest of a sum once its left operand is read: the operator, then
      the last term. */
  lemma {:induction false} AddOperand(l: Expr, op: AddOp, r: Term, s: string, i: nat, st: Stacks)
    requires ExprSpans(s, i, Add(l, op, r)) && ExprTop(st.ops)
    requires ExprPending(l).Success? && Value(l).Finite?
    ensures Run(s, i + Len(l), Push(st, ExprPending(l).value)) ==
      match ExprPending(Add(l, op, r))
      case Failure(err) => Failure(err)
      case Success(p) => Run(s, i + Len(Add(l, op, r)), Push(st, p))
    decreases Add(l, op, r), 1, 2
  {
    AddSpans(l, op, r, s, i);
    var j := i + Len(l);
    AddStep(l, op, s, j, st);
    var st2 := PushOp(PushNum(st, Value(l).v), AddChar(op));
    TermMachine(r, s, j + 1, st2);
    if TermPending(r).Success? {
      PushAdd(l, op, r, st);
    }
  }

  // ------------------------------------------------------------ results

  /** The evaluator computes the exact value of a printed expression, or
      reports the division by zero that makes it infinite. */
  lemma PrintedEvaluates(e: Expr)
    requires WellFormed(e)
    ensures Run(Print(e), 0, Empty) == Outcome(Value(e))
  {
    var cs := Print(e);
    assert cs[0..|cs|] == cs;
    SpansOfOccurs(cs, 0, e);
    ExprMachine(e, cs, 0, Empty);
    if ExprPending(e).Success? {
      ExprFlush(e, Empty, UntilEmpty);
      if Value(e).Finite? {
        var last := PushNum(Empty, Value(e).v);
        assert ReduceWhile(last, UntilEmpty) == Success(last);
      }
    } else {
      ExprPendingFails(e);
    }
  }

  /** `evaluate` ignores blanks: any text that is a printed expression once
      its whitespace is removed evaluates to that expression's value. */
  lemma EvaluatesWithBlanks(s: string, e: Expr)
    requires WellFormed(e) && RemoveWhitespace(s) == Print(e)
    ensures Evaluation(s) == Outcome(Value(e))
  {
    PrintedEvaluates(e);
  }

  /** `evaluate` gives the same answer for a text and for the text with its
      blanks removed. */
  lemma BlanksIgnored(s: string)
    ensures Evaluation(RemoveWhitespace(s)) == Evaluation(s)
  {
  }

  /** A character that is no digit, dot, parenthesis or operator -- a
      letter, say -- is passed over without touching either stack, and so
      is a stretch of them. */
  lemma {:induction false} OthersSkipped(s: string, i: nat, j: nat, st: Stacks)
    requires i <= j <= |s|
    requires forall k :: i <= k < j ==> !IsNumberChar(s[k]) && s[k] != '(' && s[k] != ')' && !IsOperator(s[k])
    ensures Run(s, i, st) == Run(s, j, st)
    decreases j - i
  {
    if i < j {
      OthersSkipped(s, i + 1, j, st);
    }
  }

  // --------------------------------------------------- missing operands

  /** A reducing loop over an empty number stack stops where it may or
      pops an empty stack. */
  lemma ReduceWithoutNumbers(st: Stacks, u: Until)
    requires st.nums == []
    ensures ReduceWhile(st, u) == if Halts(u, st.ops) then Success(st) else Failure(EmptyStack)
  {
  }

  lemma {:induction false} NoNumbersRun(s: string, i: nat, st: Stacks)
    requires i <= |s| && st.nums == []
    requires forall k :: i <= k < |s| ==> !IsNumberChar(s[k])
    ensures Run(s, i, st) == Failure(EmptyStack)
    decreases |s| - i
  {
    if i == |s| {
      ReduceWithoutNumbers(st, UntilEmpty);
    } else if s[i] == '(' {
      NoNumbersRun(s, i + 1, PushOp(st, '('));
    } else if s[i] == ')' {
      ReduceWithoutNumbers(st, UntilParen);
      if Halts(UntilParen, st.ops) && st.ops != [] {
        NoNumbersRun(s, i + 1, Stacks(st.nums, st.ops[..|st.ops| - 1]));
      }
    } else if IsOperator(s[i]) {
      ReduceWithoutNumbers(st, Below(Precedence(s[i])));
      if Halts(Below(Precedence(s[i])), st.ops) {
        NoNumbersRun(s, i + 1, PushOp(st, s[i]));
      }
    } else {
      NoNumbersRun(s, i + 1, st);
    }
  }

  /** A text without a digit or a dot -- empty, only blanks, only
      operators and parentheses, only letters -- has no operand, and some
      pop of the number stack fails. */
  lemma NoNumbersIsEmptyStack(s: string)
    requires forall k :: 0 <= k < |s| ==> !IsNumberChar(s[k])
    ensures Evaluation(s) == Failure(EmptyStack)
  {
    var t := RemoveWhitespace(s);
    RemovedWhitespaceFrom(s);
    NoNumbersRun(t, 0, Empty);
  }

  /** Every character of the blank-free text comes from the text. */
  lemma {:induction false} RemovedWhitespaceFrom(s: string)
    ensures forall k :: 0 <= k < |RemoveWhitespace(s)| ==> RemoveWhitespace(s)[k] in s
  {
    if s != [] {
      RemovedWhitespaceFrom(s[1..]);
      var t := RemoveWhitespace(s[1..]);
      forall k | 0 <= k < |t| ensures t[k] in s {
        assert t[k] in s[1..];
      }
    }
  }

  /** What is left at the end when one number stands above an operator
      or `(`: the reduction pops a missing operand. */
  lemma FinishOneNumber(v: real, c: char)
    ensures Finish(Stacks([v], [c])) == Failure(EmptyStack)
  {
  }

  /** A leading `+` or `-` before a term: `-5` has no left operand, so
      there is no unary minus. */
  lemma LeadingSignFails(op: AddOp, t: Term)
    requires WellFormedTerm(t)
    ensures Run([AddChar(op)] + PrintTerm(t), 0, Empty) ==
      if TermValue(t).Finite? then Failure(EmptyStack) else Failure(DivisionByZero)
  {
    var cs := [AddChar(op)] + PrintTerm(t);
    assert cs[1..1 + TermLen(t)] == PrintTerm(t);
    OccursTermAt(cs, 1, t);
    SignThenTerm(op, t, cs);
  }

  lemma SignThenTerm(op: AddOp, t: Term, cs: string)
    requires |cs| == 1 + TermLen(t) && cs[0] == AddChar(op) && TermSpans(cs, 1, t)
    ensures Run(cs, 0, Empty) ==
      if TermValue(t).Finite? then Failure(EmptyStack) else Failure(DivisionByZero)
  {
    var c := AddChar(op);
    var open := PushOp(Empty, c);
    OperatorTurn(cs, 0, Empty);
    assert ReduceWhile(Empty, Below(1)) == Success(Empty);
    TermMachine(t, cs, 1, open);
    if TermPending(t).Success? {
      EndTurn(cs, Push(open, TermPending(t).value));
      TermFlush(t, open, UntilEmpty);
      if TermValue(t).Finite? {
        FinishOneNumber(TermValue(t).v, c);
      }
    } else {
      TermPendingFails(t);
    }
  }

  /** A `)` with no `(` before it: the expression is folded, and then
      there is no `(` to pop. */
  lemma UnmatchedCloseFails(e: Expr)
    requires WellFormed(e)
    ensures Run(Print(e) + [')'], 0, Empty) ==
      if Value(e).Finite? then Failure(EmptyStack) else Failure(DivisionByZero)
  {
    var cs := Print(e) + [')'];
    assert cs[0..Len(e)] == Print(e);
    SpansOfOccurs(cs, 0, e);
    ExprMachine(e, cs, 0, Empty);
    if ExprPending(e).Success? {
      CloseTurn(cs, Len(e), Push(Empty, ExprPending(e).value));
      ExprFlush(e, Empty, UntilParen);
      if Value(e).Finite? {
        var last := PushNum(Empty, Value(e).v);
        assert ReduceWhile(last, UntilParen) == Success(last);
      }
    } else {
      ExprPendingFails(e);
    }
  }

  /** The main loop ends at the end of the text. */
  lemma EndTurn(s: string, st: Stacks)
    ensures Run(s, |s|, st) == Finish(st)
  {
  }

  /** The final reductions fold what an expression left into its value. */
  lemma FinishFlushed(e: Expr, base: Stacks)
    requires WellFormed(e) && ExprPending(e).Success?
    ensures Finish(Push(base, ExprPending(e).value)) ==
      if Value(e).Finite? then Finish(PushNum(base, Value(e).v)) else Failure(DivisionByZero)
  {
    ExprFlush(e, base, UntilEmpty);
  }

  /** The final reductions over a number above an unclosed `(`: `(`
      itself is applied, or its missing left operand popped. */
  lemma FinishAtParen(st: Stacks, v: real)
    ensures Finish(PushNum(PushOp(st, '('), v)) ==
      if st.nums == [] then Failure(EmptyStack) else Failure(InvalidOperator('('))
  {
    var top := PushNum(PushOp(st, '('), v);
    if st.nums != [] {
      var base := Stacks(st.nums[..|st.nums| - 1], st.ops);
      ReduceTop(base, st.nums[|st.nums| - 1], v, '(');
      assert top == Stacks(base.nums + [st.nums[|st.nums| - 1], v], base.ops + ['(']);
    }
  }

  /** A `(` that is never closed: the expression after it is read on top
      of it, and at the end the reduction reaches the `(` -- applying it to
      the operand below, or finding none. */
  lemma UnclosedGroup(e: Expr, cs: string, j: nat, st: Stacks)
    requires j < |cs| && cs[j] == '(' && ExprSpans(cs, j + 1, e) && |cs| == j + 1 + Len(e)
    ensures Run(cs, j, st) ==
      if !Value(e).Finite? then Failure(DivisionByZero)
      else if st.nums == [] then Failure(EmptyStack)
      else Failure(InvalidOperator('('))
  {
    var open := PushOp(st, '(');
    OpenTurn(cs, j, st);
    ExprMachine(e, cs, j + 1, open);
    if ExprPending(e).Success? {
      UnclosedGroupEnd(e, cs, st);
    } else {
      ExprPendingFails(e);
    }
  }

  /** The end of `UnclosedGroup` once the expression is read. */
  lemma UnclosedGroupEnd(e: Expr, cs: string, st: Stacks)
    requires WellFormed(e) && ExprPending(e).Success?
    ensures Run(cs, |cs|, Push(PushOp(st, '('), ExprPending(e).value)) ==
      if !Value(e).Finite? then Failure(DivisionByZero)
      else if st.nums == [] then Failure(EmptyStack)
      else Failure(InvalidOperator('('))
  {
    var open := PushOp(st, '(');
    EndTurn(cs, Push(open, ExprPending(e).value));
    FinishFlushed(e, open);
    if Value(e).Finite? {
      FinishAtParen(st, Value(e).v);
    }
  }

  /** `(1+2`: with no operand before it, an unclosed `(` pops an empty
      number stack at the end. */
  lemma UnclosedGroupFails(e: Expr)
    requires WellFormed(e)
    ensures Run(['('] + Print(e), 0, Empty) ==
      if Value(e).Finite? then Failure(EmptyStack) else Failure(DivisionByZero)
  {
    var cs := ['('] + Print(e);
    assert cs[1..1 + Len(e)] == Print(e);
    SpansOfOccurs(cs, 1, e);
    UnclosedGroup(e, cs, 0, Empty);
  }

  /** `2*(3`: after an operand, an unclosed `(` reaches `applyOperation`,
      which refuses it as an operator. */
  lemma UnclosedGroupAfterOperand(t: Term, op: MulOp, e: Expr)
    requires WellFormedTerm(t) && WellFormed(e)
    ensures Run(PrintTerm(t) + [MulChar(op), '('] + Print(e), 0, Empty) ==
      if TermValue(t).Finite? && Value(e).Finite? then Failure(InvalidOperator('('))
      else Failure(DivisionByZero)
  {
    var cs := PrintTerm(t) + [MulChar(op), '('] + Print(e);
    var n := TermLen(t);
    assert cs[0..n] == PrintTerm(t);
    assert cs[n] == MulChar(op) && cs[n + 1] == '(';
    assert cs[n + 2..n + 2 + Len(e)] == Print(e);
    OccursTermAt(cs, 0, t);
    SpansOfOccurs(cs, n + 2, e);
    OperandThenGroup(t, op, e, cs);
  }

  lemma OperandThenGroup(t: Term, op: MulOp, e: Expr, cs: string)
    requires TermSpans(cs, 0, t) && TermLen(t) + 1 < |cs|
    requires cs[TermLen(t)] == MulChar(op) && cs[TermLen(t) + 1] == '('
    requires ExprSpans(cs, TermLen(t) + 2, e) && |cs| == TermLen(t) + 2 + Len(e)
    ensures Run(cs, 0, Empty) ==
      if TermValue(t).Finite? && Value(e).Finite? then Failure(InvalidOperator('('))
      else Failure(DivisionByZero)
  {
    var n := TermLen(t);
    TermMachine(t, cs, 0, Empty);
    if TermPending(t).Failure? {
      TermPendingFails(t);
    } else {
      MulStep(t, op, cs, n, Empty);
      if TermValue(t).Finite? {
        UnclosedGroup(e, cs, n + 1, PushOp(PushNum(Empty, TermValue(t).v), MulChar(op)));
      }
    }
  }

  // ------------------------------------------------------------ examples

  /** A one-digit literal stands for its digit. */
  lemma DigitLiteral(c: char)
    requires IsAsciiDigit(c)
    ensures WellFormedFactor(Lit([c])) && FactorValue(Lit([c])) == Finite(DigitValue(c) as real)
    ensures PrintFactor(Lit([c])) == [c]
  {
    assert CountDots([c]) == 0;
    assert DecimalScan([c], 0.0, false, 1.0) == DecimalScan([], DigitValue(c) as real, false, 1.0);
  }

  /** `2+3*4` is 14: the product is taken first. */
  lemma ProductFirst()
    ensures Run("2+3*4", 0, Empty) == Success(14.0)
  {
    DigitLiteral('2');
    DigitLiteral('3');
    DigitLiteral('4');
    var e := Add(Single(Factor(Lit(['2']))), Plus, Mul(Factor(Lit(['3'])), Times, Lit(['4'])));
    assert Print(e) == "2+3*4";
    assert Value(e) == Finite(14.0);
    PrintedEvaluates(e);
  }

  /** `(2+3)*4` is 20: the group is taken first. */
  lemma GroupFirst()
    ensures Run("(2+3)*4", 0, Empty) == Success(20.0)
  {
    DigitLiteral('2');
    DigitLiteral('3');
    DigitLiteral('4');
    var sum := Add(Single(Factor(Lit(['2']))), Plus, Factor(Lit(['3'])));
    var e := Single(Mul(Factor(Group(sum)), Times, Lit(['4'])));
    assert Print(e) == "(2+3)*4";
    assert Value(e) == Finite(20.0);
    PrintedEvaluates(e);
  }

  /** `8-3-2` is 3: operators of equal precedence group to the left. */
  lemma LeftToRight()
    ensures Run("8-3-2", 0, Empty) == Success(3.0)
  {
    DigitLiteral('8');
    DigitLiteral('3');
    DigitLiteral('2');
    var e := Add(Add(Single(Factor(Lit(['8']))), Minus, Factor(Lit(['3']))), Minus, Factor(Lit(['2'])));
    assert Print(e) == "8-3-2";
    assert Value(e) == Finite(3.0);
    PrintedEvaluates(e);
  }

  /** `1/0` is the division-by-zero error. */
  lemma DivideByZero()
    ensures Run("1/0", 0, Empty) == Failure(DivisionByZero)
  {
    DigitLiteral('1');
    DigitLiteral('0');
    var e := Single(Mul(Factor(Lit(['1'])), Over, Lit(['0'])));
    assert Print(e) == "1/0";
    assert Value(e) == NonFinite;
    PrintedEvaluates(e);
  }
}
