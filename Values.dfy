/**
 The dynamically typed runtime values of the Void interpreter, the runtime
 errors its evaluator raises, and the result type that carries either one.
 */
module Values {

  /** A runtime value. The evaluator works on `Any?`; it dispatches on
      `Double`, `String`, `Boolean` and `null`, and treats every other object
      (a callable, a literal of some other host type) alike, so those are
      `Other`, told apart only by an identity. */
  datatype Value =
    | Num(n: real)
    | Str(s: string)
    | Bool(b: bool)
    | Nil
    | Other(id: nat)

  /** The runtime errors that evaluating an expression can raise. */
  datatype RuntimeError =
    | InvalidOperand(op: string, operand: Value)
    | UndefinedVariable(name: string)

  /** Either a value or the runtime error that aborted the evaluation;
      failure-compatible, so `:-` propagates the first error. */
  datatype Result<+T> = Ok(value: T) | Err(error: RuntimeError) {
    predicate IsFailure() {
      Err?
    }

    function PropagateFailure<U>(): Result<U>
      requires Err?
    {
      Err(error)
    }

    function Extract(): T
      requires Ok?
    {
      value
    }
  }
}
