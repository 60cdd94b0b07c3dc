# Void expression evaluator, modelled in Dafny

Void is a small dynamically typed scripting language with a tree-walking
interpreter written in Kotlin. This project models its expression evaluator
(`Evaluator`, a visitor over expression trees). The evaluator walks binary,
unary, grouping, literal and variable nodes. It returns a runtime value or
raises a runtime error. The evaluator mutates nothing, so the model is pure
functions over datatypes, and lemmas about them:

- `Values.dfy`: the runtime values, the runtime errors and a `Result` type.
  The values are number, string, boolean, null and any other object.
  The errors are `InvalidOperand(operator, value)` and `UndefinedVariable(name)`.
  A `Result` takes the place of the thrown exception.
- `Syntax.dfy`: tokens (type and lexeme) and expression trees, plus two
  syntactic helpers. `Vars` gives the variables an expression reads.
  `CheckedLexemes` gives the operators in it that demand numbers.
- `Evaluator.dfy`: the operand check, equality, truthiness, the binary and
  unary operator tables, and `Eval`, the recursive walk. `Eval` evaluates
  the left operand before the right one, and the first error aborts it.
- `EvaluatorProperties.dfy`: evaluation order, where errors come from,
  dependence on the environment only through the variables read, and
  transparency of parentheses, with concrete evaluations.

Numbers are modelled as `real`. The environment is a `map<string, Value>`
read only through a lookup.

## Model

| member | source | states |
|---|---|---|
| Evaluator.Lookup | interpreter/src/main/kotlin/me/otofune/void/interpreter/runtime/Evaluator.kt:49 | a variable evaluates to its binding, and a name with no binding is `UndefinedVariable(name)` |
| Evaluator.CheckNumberOperand | interpreter/src/main/kotlin/me/otofune/void/interpreter/runtime/Evaluator.kt:51-57 | succeeds exactly on numbers and returns the number unchanged; any other operand is `InvalidOperand(lexeme, operand)` |
| Evaluator.NumberOperands | interpreter/src/main/kotlin/me/otofune/void/interpreter/runtime/Evaluator.kt:16-26 | both operands of a numeric operator are checked, the left one first: a non-number left operand is the one reported, and the right one is reported only when the left is a number |
| Evaluator.IsEqual | interpreter/src/main/kotlin/me/otofune/void/interpreter/runtime/Evaluator.kt:59-63 | total; null equals null, null never equals a non-null value, and otherwise equality is structural with no conversion between kinds |
| Evaluator.IsTruthy | interpreter/src/main/kotlin/me/otofune/void/interpreter/runtime/Evaluator.kt:65-69 | a value is falsy exactly when it is null or `false`; zero and the empty string are truthy |
| Evaluator.ApplyBinary | interpreter/src/main/kotlin/me/otofune/void/interpreter/runtime/Evaluator.kt:15-32 | `+` on two strings concatenates. Every other arithmetic or comparison operator succeeds iff both operands are numbers, and otherwise reports the left non-number first. Arithmetic yields numbers and comparisons yield booleans. `==`/`!=` never fail and mean (in)equality of values. An unknown operator yields null. The only error is `InvalidOperand` naming this operator and a non-number operand |
| Evaluator.ApplyUnary | interpreter/src/main/kotlin/me/otofune/void/interpreter/runtime/Evaluator.kt:37-44 | `-` negates a number and is `InvalidOperand` on anything else; `!` never fails and yields true exactly for null and `false`; any other operator yields null |
| Evaluator.Eval | interpreter/src/main/kotlin/me/otofune/void/interpreter/runtime/Evaluator.kt:11-49 | an unbound name it reports is one the expression reads and the environment lacks, and an `InvalidOperand` it reports names the lexeme of a numeric operator of the expression and a non-number; left-then-right order with the first error winning, the leaves and the groupings are stated by `EvalBinaryOrder`, `EvalLeaves` and `GroupingTransparent` |
| EvaluatorProperties.EvalBinaryOrder | interpreter/src/main/kotlin/me/otofune/void/interpreter/runtime/Evaluator.kt:11-14 | the left operand's error wins; the right operand's error comes next; only two values reach the operator |
| EvaluatorProperties.LeftOperandBlamedFirst | interpreter/src/main/kotlin/me/otofune/void/interpreter/runtime/Evaluator.kt:12-26 | when both operands of a numeric operator are non-numbers, the error carries the operator's lexeme and the left value |
| EvaluatorProperties.NotEqualNegatesEqual | interpreter/src/main/kotlin/me/otofune/void/interpreter/runtime/Evaluator.kt:28-29 | `!=` fails exactly when `==` does, with the same error, and otherwise yields the opposite boolean |
| EvaluatorProperties.NotNeverFailsItself | interpreter/src/main/kotlin/me/otofune/void/interpreter/runtime/Evaluator.kt:37-42 | `!` fails only when its operand does, and otherwise yields the negated truthiness of the operand |
| EvaluatorProperties.EvalErrorOrigin | interpreter/src/main/kotlin/me/otofune/void/interpreter/runtime/Evaluator.kt:11-57 | every error of an evaluation is an unbound variable the expression reads, or a non-number that is the evaluated operand of a numeric operator of the expression carrying the error's lexeme |
| EvaluatorProperties.EvalSucceedsWithoutCause | interpreter/src/main/kotlin/me/otofune/void/interpreter/runtime/Evaluator.kt:11-63 | an expression with all its variables bound and no numeric operator always evaluates without error |
| EvaluatorProperties.EvalReadsOnlyItsVars | interpreter/src/main/kotlin/me/otofune/void/interpreter/runtime/Evaluator.kt:11-49 | two environments that agree on the variables an expression reads give it the same outcome |
| EvaluatorProperties.GroupingTransparent | interpreter/src/main/kotlin/me/otofune/void/interpreter/runtime/Evaluator.kt:35 | a grouping node evaluates as its inner expression, and removing every grouping node from a tree changes no evaluation |
| EvaluatorProperties.EvalLeaves | interpreter/src/main/kotlin/me/otofune/void/interpreter/runtime/Evaluator.kt:47-49 | a literal evaluates to its embedded value; a variable to its binding or to `UndefinedVariable` |
| EvaluatorProperties.Examples | interpreter/src/main/kotlin/me/otofune/void/interpreter/runtime/Evaluator.kt:11-69 | `"foo" + "bar"` is `"foobar"`; `"foo" + 1` and `1 + "foo"` are `InvalidOperand`; `null == null`; `null != 0`; `"1" != 1`; `!0` is false; `-"1"` is `InvalidOperand` |

## Left out

- Floating point: numbers are unbounded reals. NaN, infinities, `-0.0` versus `0.0` under boxed equality, and the formatting of doubles are not modelled.
- Evaluator.ApplyBinary: does not state the result of a division by zero, which in the source is an IEEE infinity or NaN; the model's `Quotient` fixes it at zero only so that the result is a number, as in the source, and never an error.
- Evaluator.CheckNumberOperand: the source's `toString().toDouble()` round trip of a double is taken to be the identity.
- The `Environment` class is not part of this model. Its `get` is modelled as a lookup in a map that fails with `UndefinedVariable` on a missing name. No scoping, declaration or assignment is modelled.
- Objects other than numbers, strings, booleans and null (callables, or literals of another host type) are `Other(id)`. Their `equals` is modelled as equality of the identity.
- `Expr`, `Token`, `TokenType` and `VoidRuntimeException` are not part of this model; only the shapes the evaluator reads are mirrored. The visitor's `visitExpr` dispatch is the `match` in `Eval`.
- Statements (grammar/src/main/kotlin/me/otofune/void/grammar/Stmt.kt) are declarations only, and the evaluator does not execute them. So blocks, variable declarations, printing, `if`, functions, closures and calls are not modelled. Assignment and call expressions do not exist in the evaluator either.
