/**
 The shapes of the tokens and expression trees the evaluator consumes.
 Lexing and parsing are not part of this model; only the fields the
 evaluator reads are kept.
 */
module Syntax {
  import opened Values

  /** Operator token types the evaluator dispatches on; every other member of
      the lexer's token-type enumeration is `OtherKind`, named by its tag. */
  datatype TokenType =
    | Minus | Plus | Slash | Star
    | Bang | BangEqual | EqualEqual
    | Greater | GreaterEqual | Less | LessEqual
    | OtherKind(tag: string)

  datatype Token = Token(kind: TokenType, lexeme: string)

  datatype Expr =
    | Binary(left: Expr, op: Token, right: Expr)
    | Unary(op: Token, right: Expr)
    | Grouping(expr: Expr)
    | Literal(value: Value)
    | Variable(name: Token)

  /** `-`, `*`, `/` and `+`. */
  predicate IsArithmetic(k: TokenType) {
    k == Minus || k == Star || k == Slash || k == Plus
  }

  /** `<`, `>`, `<=` and `>=`. */
  predicate IsComparison(k: TokenType) {
    k == Less || k == Greater || k == LessEqual || k == GreaterEqual
  }

  /** The names an expression reads from the environment. */
  function Vars(e: Expr): set<string> {
    match e
    case Binary(l, _, r) => Vars(l) + Vars(r)
    case Unary(_, r) => Vars(r)
    case Grouping(inner) => Vars(inner)
    case Literal(_) => {}
    case Variable(name) => {name.lexeme}
  }

  /** The lexemes of the operators in an expression that demand numeric
      operands: binary arithmetic and comparison operators, and unary minus. */
  function CheckedLexemes(e: Expr): set<string> {
    match e
    case Binary(l, op, r) =>
      (if IsArithmetic(op.kind) || IsComparison(op.kind) then {op.lexeme} else {})
      + CheckedLexemes(l) + CheckedLexemes(r)
    case Unary(op, r) =>
      (if op.kind == Minus then {op.lexeme} else {}) + CheckedLexemes(r)
    case Grouping(inner) => CheckedLexemes(inner)
    case Literal(_) => {}
    case Variable(_) => {}
  }
}
