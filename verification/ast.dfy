/** The AnkQL abstract syntax tree. */
module Ast {
  import opened Bytes

  type Int64 = i: int | -0x8000_0000_0000_0000 <= i < 0x8000_0000_0000_0000
  type UInt64 = n: nat | n < 0x1_0000_0000_0000_0000

  datatype ComparisonOperator =
    | Equal
    | NotEqual
    | GreaterThan
    | GreaterThanOrEqual
    | LessThan
    | LessThanOrEqual
    | In
    | Between

  datatype InfixOperator = Add | Subtract | Multiply | Divide

  /** A float is its IEEE 754 bit pattern together with the text Rust displays for it: float
      formatting is library code that this model does not look into. */
  datatype Literal =
    | String(s: Text)
    | Integer(i: Int64)
    | Float(bits: UInt64, shown: Text)
    | Boolean(b: bool)

  datatype Identifier =
    | Property(name: Text)
    | CollectionProperty(collection: Text, name: Text)

  datatype Expr =
    | Constant(literal: Literal)
    | Name(identifier: Identifier)
    | Nested(condition: Predicate)
    | Infix(left: Expr, infix: InfixOperator, right: Expr)

  datatype Predicate =
    | Comparison(left: Expr, operator: ComparisonOperator, right: Expr)
    | IsNull(expr: Expr)
    | And(l: Predicate, r: Predicate)
    | Or(l: Predicate, r: Predicate)
    | Not(p: Predicate)
    | True

  /** The operators the evaluator, the printers and the parser support. */
  predicate Basic(op: ComparisonOperator) {
    !op.In? && !op.Between?
  }

  /** The operands they support. */
  predicate Simple(e: Expr) {
    e.Constant? || e.Name?
  }

  /** Predicates on which neither the evaluator nor a printer panics. */
  predicate Supported(p: Predicate) {
    match p
    case Comparison(left, op, right) => Simple(left) && Basic(op) && Simple(right)
    case IsNull(e) => Simple(e)
    case And(l, r) => Supported(l) && Supported(r)
    case Or(l, r) => Supported(l) && Supported(r)
    case Not(q) => Supported(q)
    case True => true
  }

  /** The text of a literal: what `to_string` gives, without quotes. */
  function LiteralText(lit: Literal): Text {
    match lit
    case String(s) => s
    case Integer(i) => IntegerText(i)
    case Float(_, shown) => shown
    case Boolean(b) => if b then Ascii("true") else Ascii("false")
  }
}
