/**
 The expression evaluator of the Void interpreter: a recursive walk over an
 expression tree that yields a runtime value or a runtime error.
 */
module Evaluator {
  import opened Values
  import opened Syntax

  /** The environment the evaluator reads variables from, seen only through
      its lookup. */
  type Env = map<string, Value>

  /** Looks a variable up; a name with no binding is an error. */
  function Lookup(env: Env, name: string): (r: Result<Value>)
    ensures r.Ok? <==> name in env
    ensures r.Ok? ==> r.value == env[name]
    ensures r.Err? ==> r.error == UndefinedVariable(name)
  {
    if name in env then Ok(env[name]) else Err(UndefinedVariable(name))
  }

  /** Accepts an operand only if it already is a number, and hands that number
      back unchanged; anything else is an `InvalidOperand` error that names
      the operator and the operand. */
  function CheckNumberOperand(op: Token, operand: Value): (r: Result<real>)
    ensures r.Ok? <==> operand.Num?
    ensures operand.Num? ==> r.value == operand.n
    ensures r.Err? ==> r.error == InvalidOperand(op.lexeme, operand)
  {
    match operand
    case Num(n) => Ok(n)
    case _ => Err(InvalidOperand(op.lexeme, operand))
  }

  /** Checks both operands of a numeric binary operator, the left one first. */
  function NumberOperands(op: Token, left: Value, right: Value): (r: Result<(real, real)>)
    ensures r.Ok? <==> left.Num? && right.Num?
    ensures r.Ok? ==> r.value == (left.n, right.n)
    ensures !left.Num? ==> r == Err(InvalidOperand(op.lexeme, left))
    ensures left.Num? && !right.Num? ==> r == Err(InvalidOperand(op.lexeme, right))
  {
    var a :- CheckNumberOperand(op, left);
    var b :- CheckNumberOperand(op, right);
    Ok((a, b))
  }

  /** Equality of runtime values: null equals only null, and otherwise values
      are equal exactly when they are the same value, with no conversion
      between kinds. */
  function IsEqual(left: Value, right: Value): (eq: bool)
    ensures left.Nil? && right.Nil? ==> eq
    ensures left.Nil? != right.Nil? ==> !eq
    ensures eq <==> left == right
  {
    if left.Nil? && right.Nil? then true
    else if left.Nil? then false
    else left == right
  }

  /** Truthiness: null and `false` are falsy; every other value, including
      the number zero and the empty string, is truthy. */
  function IsTruthy(v: Value): (t: bool)
    ensures !t <==> v == Nil || v == Bool(false)
  {
    match v
    case Nil => false
    case Bool(b) => b
    case _ => true
  }

  /** Division of the abstract numbers. Division by zero does not raise; its
      floating-point result is not modelled and is fixed at zero here. */
  function Quotient(a: real, b: real): real {
    if b == 0.0 then 0.0 else a / b
  }

  /** The operator of a binary expression applied to its two evaluated
      operands. */
  function ApplyBinary(op: Token, left: Value, right: Value): (r: Result<Value>)
    // `+` on two strings concatenates and cannot fail
    ensures op.kind == Plus && left.Str? && right.Str? ==> r == Ok(Str(left.s + right.s))
    // every other arithmetic or comparison demands two numbers, left checked first
    ensures IsComparison(op.kind) || (IsArithmetic(op.kind) && !(op.kind == Plus && left.Str? && right.Str?)) ==>
      && (r.Ok? <==> left.Num? && right.Num?)
      && (!left.Num? ==> r == Err(InvalidOperand(op.lexeme, left)))
      && (left.Num? && !right.Num? ==> r == Err(InvalidOperand(op.lexeme, right)))
    ensures IsArithmetic(op.kind) && r.Ok? ==> r.value.Num? || r.value.Str?
    ensures IsArithmetic(op.kind) && r.Ok? && r.value.Str? ==> op.kind == Plus
    ensures IsComparison(op.kind) && r.Ok? ==> r.value.Bool?
    // the numeric results
    ensures left.Num? && right.Num? ==>
      && (op.kind == Plus ==> r == Ok(Num(left.n + right.n)))
      && (op.kind == Minus ==> r == Ok(Num(left.n - right.n)))
      && (op.kind == Star ==> r == Ok(Num(left.n * right.n)))
      && (op.kind == Slash && right.n != 0.0 ==> r == Ok(Num(left.n / right.n)))
      && (op.kind == Less ==> r == Ok(Bool(left.n < right.n)))
      && (op.kind == Greater ==> r == Ok(Bool(left.n > right.n)))
      && (op.kind == LessEqual ==> r == Ok(Bool(left.n <= right.n)))
      && (op.kind == GreaterEqual ==> r == Ok(Bool(left.n >= right.n)))
    // equality never fails and does no conversion
    ensures op.kind == EqualEqual ==> r == Ok(Bool(left == right))
    ensures op.kind == BangEqual ==> r == Ok(Bool(left != right))
    // an operator the evaluator does not know yields null
    ensures !IsArithmetic(op.kind) && !IsComparison(op.kind) && op.kind != EqualEqual && op.kind != BangEqual ==>
      r == Ok(Nil)
    // the only possible error is a non-number handed to a numeric operator
    ensures r.Err? ==>
      && (IsArithmetic(op.kind) || IsComparison(op.kind))
      && r.error.InvalidOperand? && r.error.op == op.lexeme && !r.error.operand.Num?
      && (r.error.operand == left || r.error.operand == right)
  {
    match op.kind
    case Minus =>
      var p :- NumberOperands(op, left, right);
      Ok(Num(p.0 - p.1))
    case Star =>
      var p :- NumberOperands(op, left, right);
      assert p.0 * p.1 == left.n * right.n;
      Ok(Num(p.0 * p.1))
    case Slash =>
      var p :- NumberOperands(op, left, right);
      Ok(Num(Quotient(p.0, p.1)))
    case Plus =>
      if left.Str? && right.Str? then Ok(Str(left.s + right.s))
      else
        var p :- NumberOperands(op, left, right);
        Ok(Num(p.0 + p.1))
    case Less =>
      var p :- NumberOperands(op, left, right);
      Ok(Bool(p.0 < p.1))
    case Greater =>
      var p :- NumberOperands(op, left, right);
      Ok(Bool(p.0 > p.1))
    case LessEqual =>
      var p :- NumberOperands(op, left, right);
      Ok(Bool(p.0 <= p.1))
    case GreaterEqual =>
      var p :- NumberOperands(op, left, right);
      Ok(Bool(p.0 >= p.1))
    case EqualEqual => Ok(Bool(IsEqual(left, right)))
    case BangEqual => Ok(Bool(!IsEqual(left, right)))
    case _ => Ok(Nil)
  }

  /** The operator of a unary expression applied to its evaluated operand. */
  function ApplyUnary(op: Token, right: Value): (r: Result<Value>)
    // `-` negates a number and rejects everything else
    ensures op.kind == Minus ==> (r.Ok? <==> right.Num?)
    ensures op.kind == Minus && right.Num? ==> r == Ok(Num(-right.n))
    ensures op.kind == Minus && !right.Num? ==> r == Err(InvalidOperand(op.lexeme, right))
    // `!` never fails and negates truthiness: true exactly for null and false
    ensures op.kind == Bang ==> r == Ok(Bool(right == Nil || right == Bool(false)))
    // any other operator yields null
    ensures op.kind != Minus && op.kind != Bang ==> r == Ok(Nil)
  {
    match op.kind
    case Minus =>
      var n :- CheckNumberOperand(op, right);
      Ok(Num(-n))
    case Bang => Ok(Bool(!IsTruthy(right)))
    case _ => Ok(Nil)
  }

  /** Evaluates an expression: operands first, the left before the right,
      then the node's operator; the first error aborts the walk. An unbound
      name it reports is one the expression reads, and an operand it rejects
      is a non-number rejected by a numeric operator of the expression. */
  function Eval(e: Expr, env: Env): (r: Result<Value>)
    ensures r.Err? && r.error.UndefinedVariable? ==> r.error.name in Vars(e) && r.error.name !in env
    ensures r.Err? && r.error.InvalidOperand? ==>
      r.error.op in CheckedLexemes(e) && !r.error.operand.Num?
  {
    match e
    case Binary(l, op, r) =>
      var left :- Eval(l, env);
      var right :- Eval(r, env);
      ApplyBinary(op, left, right)
    case Unary(op, r) =>
      var right :- Eval(r, env);
      ApplyUnary(op, right)
    case Grouping(inner) => Eval(inner, env)
    case Literal(v) => Ok(v)
    case Variable(name) => Lookup(env, name.lexeme)
  }
}
