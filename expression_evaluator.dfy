/** `ExpressionEvaluator`: a shunting-yard evaluator over a number stack and
    an operator stack. The stacks are sequences whose last element is the
    top; the exceptions the Java code throws are the failures of a
    `Result`. */
module ExpressionEvaluator {
  import opened Common
  import opened JavaLang

  /** What `evaluate` throws: `Division by zero`, `Invalid operator`, an
      `EmptyStackException` from popping an empty stack, or a
      `NumberFormatException` from `Double.parseDouble`. */
  datatype EvalError = DivisionByZero | InvalidOperator(op: char) | EmptyStack | NumberFormat

  /** `numbers` and `operators`, top last. */
  datatype Stacks = Stacks(nums: seq<real>, ops: seq<char>)

  const Empty := Stacks([], [])

  predicate IsOperator(c: char) {
    c == '+' || c == '-' || c == '*' || c == '/'
  }

  /** `precedence`: products bind tighter than sums; anything else, which
      on the operator stack can only be `(`, is below both. */
  function Precedence(op: char): (p: int)
    ensures p == 1 <==> op == '+' || op == '-'
    ensures p == 2 <==> op == '*' || op == '/'
    ensures p < 1 <==> !IsOperator(op)
  {
    if op == '+' || op == '-' then 1
    else if op == '*' || op == '/' then 2
    else -1
  }

  /** `applyOperation(op, b, a)`: `a` is the earlier operand. */
  function Apply(op: char, b: real, a: real): (r: Result<real, EvalError>)
    ensures r == Failure(InvalidOperator(op)) <==> !IsOperator(op)
    ensures r == Failure(DivisionByZero) <==> op == '/' && b == 0.0
    ensures r.Failure? ==> r == Failure(InvalidOperator(op)) || r == Failure(DivisionByZero)
  {
    if op == '+' then Success(a + b)
    else if op == '-' then Success(a - b)
    else if op == '*' then Success(a * b)
    else if op == '/' then (if b == 0.0 then Failure(DivisionByZero) else Success(a / b))
    else Failure(InvalidOperator(op))
  }

  /** `numbers.push(applyOperation(operators.pop(), numbers.pop(),
      numbers.pop()))`: the arguments are evaluated left to right, so the
      operator is popped first and a missing operand is reported before
      an invalid operator. */
  function Reduce(st: Stacks): (r: Result<Stacks, EvalError>)
    requires st.ops != []
    ensures r.Success? ==> r.value.ops == st.ops[..|st.ops| - 1]
    ensures r.Success? ==> |st.nums| >= 2 && |r.value.nums| == |st.nums| - 1
    ensures r.Success? ==> r.value.nums[..|st.nums| - 2] == st.nums[..|st.nums| - 2]
    ensures |st.nums| < 2 ==> r == Failure(EmptyStack)
  {
    var op := st.ops[|st.ops| - 1];
    if |st.nums| < 2 then Failure(EmptyStack)
    else
      var b := st.nums[|st.nums| - 1];
      var a := st.nums[|st.nums| - 2];
      match Apply(op, b, a)
      case Failure(e) => Failure(e)
      case Success(v) => Success(Stacks(st.nums[..|st.nums| - 2] + [v], st.ops[..|st.ops| - 1]))
  }

  /** When a reducing loop stops: on `(` for `)`, below the incoming
      operator's precedence for an operator, and only on an empty stack at
      the end. */
  datatype Until = UntilParen | Below(prec: int) | UntilEmpty

  predicate Halts(u: Until, ops: seq<char>) {
    ops == [] ||
    match u
    case UntilParen => ops[|ops| - 1] == '('
    case Below(p) => Precedence(ops[|ops| - 1]) < p
    case UntilEmpty => false
  }

  /** The reducing `while` loops of `evaluateExpression`. */
  function ReduceWhile(st: Stacks, u: Until): (r: Result<Stacks, EvalError>)
    ensures r.Success? ==> Halts(u, r.value.ops) && |r.value.ops| <= |st.ops|
    ensures r.Success? ==> r.value.ops == st.ops[..|r.value.ops|]
    decreases |st.ops|
  {
    if Halts(u, st.ops) then Success(st)
    else
      match Reduce(st)
      case Failure(e) => Failure(e)
      case Success(next) => ReduceWhile(next, u)
  }

  /** The last steps: reduce everything left, then pop the result. */
  function Finish(st: Stacks): (r: Result<real, EvalError>)
  {
    match ReduceWhile(st, UntilEmpty)
    case Failure(e) => Failure(e)
    case Success(last) =>
      if last.nums == [] then Failure(EmptyStack) else Success(last.nums[|last.nums| - 1])
  }

  /** What `evaluateExpression` computes from position `i` of `s` with the
      stacks `st`: one turn of the main loop per character, or per run of
      digits and dots. */
  function Run(s: string, i: nat, st: Stacks): (r: Result<real, EvalError>)
    requires i <= |s|
    decreases |s| - i, 1
  {
    if i == |s| then Finish(st)
    else
      var c := s[i];
      if IsNumberChar(c) then
        NumberStep(s, i, RunEnd(s, i), st)
      else if c == '(' then
        Run(s, i + 1, Stacks(st.nums, st.ops + ['(']))
      else if c == ')' then
        match ReduceWhile(st, UntilParen)
        case Failure(e) => Failure(e)
        case Success(next) =>
          if next.ops == [] then Failure(EmptyStack)
          else Run(s, i + 1, Stacks(next.nums, next.ops[..|next.ops| - 1]))
      else if IsOperator(c) then
        match ReduceWhile(st, Below(Precedence(c)))
        case Failure(e) => Failure(e)
        case Success(next) => Run(s, i + 1, Stacks(next.nums, next.ops + [c]))
      else
        Run(s, i + 1, st)
  }

  /** The number case of the main loop: parse the run `s[i..j]` and push
      its value. */
  function NumberStep(s: string, i: nat, j: nat, st: Stacks): (r: Result<real, EvalError>)
    requires i < |s| && IsNumberChar(s[i]) && j == RunEnd(s, i)
    decreases |s| - i, 0
  {
    var run := s[i..j];
    assert forall k :: 0 <= k < |run| ==> IsNumberChar(run[k]) by {
      forall k | 0 <= k < |run| ensures IsNumberChar(run[k]) { assert run[k] == s[i + k]; }
    }
    match ParseDecimalRun(run)
    case None => Failure(NumberFormat)
    case Some(v) => Run(s, j, Stacks(st.nums + [v], st.ops))
  }

  /** `evaluate`: every `\s` character removed, then the main loop. */
  function Evaluation(expression: string): (r: Result<real, EvalError>)
  {
    Run(RemoveWhitespace(expression), 0, Empty)
  }

  // --------------------------------------------------------------- code

  /** `evaluate`. */
  method Evaluate(expression: string) returns (r: Result<real, EvalError>)
    ensures r == Evaluation(expression)
  {
    var stripped := RemoveWhitespace(expression);
    r := EvaluateExpression(stripped);
  }

  /** One of the reducing `while` loops. */
  method ReduceLoop(st: Stacks, u: Until) returns (r: Result<Stacks, EvalError>)
    ensures r == ReduceWhile(st, u)
  {
    var cur := st;
    while !Halts(u, cur.ops)
      invariant ReduceWhile(cur, u) == ReduceWhile(st, u)
      decreases |cur.ops|
    {
      var step := Reduce(cur);
      if step.Failure? {
        return Failure(step.error);
      }
      cur := step.value;
    }
    return Success(cur);
  }

  /** `evaluateExpression`. */
  method EvaluateExpression(expression: string) returns (r: Result<real, EvalError>)
    ensures r == Run(expression, 0, Empty)
  {
    var st := Empty;
    var i := 0;
    while i < |expression|
      invariant 0 <= i <= |expression|
      invariant Run(expression, i, st) == Run(expression, 0, Empty)
      decreases |expression| - i
    {
      var c := expression[i];
      if IsNumberChar(c) {
        var start := i;
        while i < |expression| && IsNumberChar(expression[i])
          invariant start <= i <= |expression|
          invariant RunEnd(expression, i) == RunEnd(expression, start)
          decreases |expression| - i
        {
          i := i + 1;
        }
        var run := expression[start..i];
        assert forall k :: 0 <= k < |run| ==> IsNumberChar(run[k]) by {
          forall k | 0 <= k < |run| ensures IsNumberChar(run[k]) { assert run[k] == expression[start + k]; }
        }
        var parsed := ParseDecimalRun(run);
        if parsed.None? {
          return Failure(NumberFormat);
        }
        st := Stacks(st.nums + [parsed.value], st.ops);
        continue;
      }
      if c == '(' {
        st := Stacks(st.nums, st.ops + ['(']);
      } else if c == ')' {
        var reduced := ReduceLoop(st, UntilParen);
        if reduced.Failure? {
          return Failure(reduced.error);
        }
        st := reduced.value;
        if st.ops == [] {
          return Failure(EmptyStack);
        }
        st := Stacks(st.nums, st.ops[..|st.ops| - 1]);
      } else if IsOperator(c) {
        var reduced := ReduceLoop(st, Below(Precedence(c)));
        if reduced.Failure? {
          return Failure(reduced.error);
        }
        st := Stacks(reduced.value.nums, reduced.value.ops + [c]);
      }
      i := i + 1;
    }
    var reduced := ReduceLoop(st, UntilEmpty);
    if reduced.Failure? {
      return Failure(reduced.error);
    }
    st := reduced.value;
    if st.nums == [] {
      return Failure(EmptyStack);
    }
    r := Success(st.nums[|st.nums| - 1]);
  }
}
