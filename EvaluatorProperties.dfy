/**
 Properties of the expression evaluator that relate several evaluations or
 hold for every expression tree.
 */
module EvaluatorProperties {
  import opened Values
  import opened Syntax
  import opened Evaluator

  /** Some numeric operator of `e` whose lexeme is `op` has an operand that
      evaluates to `v`: a binary arithmetic or comparison operator with `v`
      as its left or right operand, or a unary minus with `v` as its operand. */
  predicate RejectedIn(e: Expr, env: Env, op: string, v: Value) {
    match e
    case Binary(l, o, r) =>
      || ((IsArithmetic(o.kind) || IsComparison(o.kind)) && o.lexeme == op
          && (Eval(l, env) == Ok(v) || Eval(r, env) == Ok(v)))
      || RejectedIn(l, env, op, v)
      || RejectedIn(r, env, op, v)
    case Unary(o, r) =>
      || (o.kind == Minus && o.lexeme == op && Eval(r, env) == Ok(v))
      || RejectedIn(r, env, op, v)
    case Grouping(inner) => RejectedIn(inner, env, op, v)
    case Literal(_) => false
    case Variable(_) => false
  }

  /** An error is accounted for by an expression when it names a variable the
      expression reads and the environment lacks, or a non-number that is the
      evaluated operand of a numeric operator of the expression bearing the
      error's lexeme. */
  predicate Explains(e: Expr, env: Env, err: RuntimeError) {
    match err
    case UndefinedVariable(x) => x in Vars(e) && x !in env
    case InvalidOperand(op, v) => !v.Num? && RejectedIn(e, env, op, v)
  }

  /** Operands are evaluated left before right, the first error wins, and
      only two successfully evaluated operands reach the operator. */
  lemma EvalBinaryOrder(l: Expr, op: Token, r: Expr, env: Env)
    ensures Eval(l, env).Err? ==> Eval(Binary(l, op, r), env) == Err(Eval(l, env).error)
    ensures Eval(l, env).Ok? && Eval(r, env).Err? ==>
      Eval(Binary(l, op, r), env) == Err(Eval(r, env).error)
    ensures Eval(l, env).Ok? && Eval(r, env).Ok? ==>
      Eval(Binary(l, op, r), env) == ApplyBinary(op, Eval(l, env).value, Eval(r, env).value)
  {
  }

  /** When both operands of a numeric operator are non-numbers (and it is not
      `+` on two strings), the error names the operator and the LEFT value. */
  lemma LeftOperandBlamedFirst(l: Expr, op: Token, r: Expr, env: Env, a: Value, b: Value)
    requires IsArithmetic(op.kind) || IsComparison(op.kind)
    requires Eval(l, env) == Ok(a) && Eval(r, env) == Ok(b)
    requires !a.Num? && !b.Num? && !(op.kind == Plus && a.Str? && b.Str?)
    ensures Eval(Binary(l, op, r), env) == Err(InvalidOperand(op.lexeme, a))
  {
  }

  /** `!=` is exactly the negation of `==`: both fail alike, or both yield
      booleans of opposite value. */
  lemma NotEqualNegatesEqual(l: Expr, eq: Token, ne: Token, r: Expr, env: Env)
    requires eq.kind == EqualEqual && ne.kind == BangEqual
    ensures Eval(Binary(l, ne, r), env).Err? <==> Eval(Binary(l, eq, r), env).Err?
    ensures Eval(Binary(l, eq, r), env).Err? ==>
      Eval(Binary(l, ne, r), env) == Eval(Binary(l, eq, r), env)
    ensures Eval(Binary(l, eq, r), env).Ok? ==>
      && Eval(Binary(l, eq, r), env).value.Bool?
      && Eval(Binary(l, ne, r), env) == Ok(Bool(!Eval(Binary(l, eq, r), env).value.b))
  {
  }

  /** Logical not fails only when its operand does, and otherwise yields the
      boolean opposite of the operand's truthiness. */
  lemma NotNeverFailsItself(op: Token, e: Expr, env: Env)
    requires op.kind == Bang
    ensures Eval(Unary(op, e), env).Err? <==> Eval(e, env).Err?
    ensures Eval(e, env).Ok? ==> Eval(Unary(op, e), env) == Ok(Bool(!IsTruthy(Eval(e, env).value)))
  {
  }

  /** Every error an evaluation raises is accounted for by the expression:
      a variable it reads that is unbound, or a non-number met by one of its
      numeric operators. */
  lemma {:induction false} EvalErrorOrigin(e: Expr, env: Env)
    ensures Eval(e, env).Err? ==> Explains(e, env, Eval(e, env).error)
  {
    match e
    case Binary(l, op, r) =>
      EvalErrorOrigin(l, env);
      EvalErrorOrigin(r, env);
    case Unary(op, r) =>
      EvalErrorOrigin(r, env);
    case Grouping(inner) =>
      EvalErrorOrigin(inner, env);
    case Literal(_) =>
    case Variable(_) =>
  }

  /** An expression whose variables are all bound and which contains no
      numeric operator (only literals, variables, grouping, `==`, `!=`, `!`
      and operators the evaluator does not know) always evaluates. */
  lemma EvalSucceedsWithoutCause(e: Expr, env: Env)
    requires Vars(e) <= env.Keys
    requires CheckedLexemes(e) == {}
    ensures Eval(e, env).Ok?
  {
  }

  /** Evaluation reads the environment only at the variables the expression
      mentions: two environments that agree there give the same outcome. */
  lemma {:induction false} EvalReadsOnlyItsVars(e: Expr, env1: Env, env2: Env)
    requires forall x :: x in Vars(e) ==> Lookup(env1, x) == Lookup(env2, x)
    ensures Eval(e, env1) == Eval(e, env2)
  {
    match e
    case Binary(l, op, r) =>
      EvalReadsOnlyItsVars(l, env1, env2);
      EvalReadsOnlyItsVars(r, env1, env2);
    case Unary(op, r) =>
      EvalReadsOnlyItsVars(r, env1, env2);
    case Grouping(inner) =>
      EvalReadsOnlyItsVars(inner, env1, env2);
    case Literal(_) =>
    case Variable(name) =>
      assert name.lexeme in Vars(e);
  }

  /** The tree with every grouping node removed. */
  function StripGroupings(e: Expr): Expr {
    match e
    case Binary(l, op, r) => Binary(StripGroupings(l), op, StripGroupings(r))
    case Unary(op, r) => Unary(op, StripGroupings(r))
    case Grouping(inner) => StripGroupings(inner)
    case Literal(_) => e
    case Variable(_) => e
  }

  /** Parentheses are transparent at every depth: removing all grouping
      nodes changes no evaluation. */
  lemma {:induction false} GroupingTransparent(e: Expr, env: Env)
    ensures Eval(StripGroupings(e), env) == Eval(e, env)
    ensures Eval(Grouping(e), env) == Eval(e, env)
  {
    match e
    case Binary(l, op, r) =>
      GroupingTransparent(l, env);
      GroupingTransparent(r, env);
    case Unary(op, r) =>
      GroupingTransparent(r, env);
    case Grouping(inner) =>
      GroupingTransparent(inner, env);
    case Literal(_) =>
    case Variable(_) =>
  }

  /** Leaves: a literal yields its value, a variable its binding or an
      `UndefinedVariable` error. */
  lemma EvalLeaves(v: Value, name: Token, env: Env)
    ensures Eval(Literal(v), env) == Ok(v)
    ensures name.lexeme in env ==> Eval(Variable(name), env) == Ok(env[name.lexeme])
    ensures name.lexeme !in env ==> Eval(Variable(name), env) == Err(UndefinedVariable(name.lexeme))
  {
  }

  /** Concrete evaluations: string concatenation, the refusal to stringify a
      number, equality without coercion, and the truthiness of zero. */
  lemma Examples()
    ensures Eval(Binary(Literal(Str("foo")), Token(Plus, "+"), Literal(Str("bar"))), map[])
         == Ok(Str("foobar"))
    ensures Eval(Binary(Literal(Str("foo")), Token(Plus, "+"), Literal(Num(1.0))), map[])
         == Err(InvalidOperand("+", Str("foo")))
    ensures Eval(Binary(Literal(Num(1.0)), Token(Plus, "+"), Literal(Str("foo"))), map[])
         == Err(InvalidOperand("+", Str("foo")))
    ensures Eval(Binary(Literal(Nil), Token(EqualEqual, "=="), Literal(Nil)), map[]) == Ok(Bool(true))
    ensures Eval(Binary(Literal(Nil), Token(EqualEqual, "=="), Literal(Num(0.0))), map[]) == Ok(Bool(false))
    ensures Eval(Binary(Literal(Str("1")), Token(EqualEqual, "=="), Literal(Num(1.0))), map[]) == Ok(Bool(false))
    ensures Eval(Unary(Token(Bang, "!"), Literal(Num(0.0))), map[]) == Ok(Bool(false))
    ensures Eval(Unary(Token(Minus, "-"), Literal(Str("1"))), map[]) == Err(InvalidOperand("-", Str("1")))
  {
    assert "foo" + "bar" == "foobar";
  }
}
