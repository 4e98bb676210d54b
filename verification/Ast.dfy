/** The syntax trees of src/ast.rs. */
module Ast {
  import opened Prelude

  function Power2(e: nat): nat {
    if e == 0 then 1 else 2 * Power2(e - 1)
  }

  /** `x` is `m` times the `e`-th power of two. */
  predicate Scaled(x: real, m: int, e: int) {
    if e >= 0 then x == m as real * Power2(e) as real else x * Power2(-e) as real == m as real
  }

  /** The finite values of an IEEE 754 double. */
  ghost predicate IsDouble(x: real) {
    exists m: int, e: int ::
      -9_007_199_254_740_992 < m < 9_007_199_254_740_992 && -1074 <= e <= 971 && Scaled(x, m, e)
  }

  /** A literal's value. */
  type Double = x: real | IsDouble(x) witness (assert Scaled(0.0, 0, 0); 0.0)

  datatype Expr =
    | Number(value: Double)
    | BoolLit(flag: bool)
    | TextLit(template: string)
    | Name(source: string, canonicalId: Option<string>)
    | QuantityLit(value: Double, unit: string)
    | ArrayLit(items: seq<Expr>)
    | Index(base: Expr, index: Expr)
    | Slice(base: Expr, start: Option<Expr>, stop: Option<Expr>)
    | Unary(op: char, operand: Expr)
    | Binary(op: char, left: Expr, right: Expr)
    | Compare(cmp: string, left: Expr, right: Expr)
    | Logical(logic: string, left: Expr, right: Expr)
    | Not(operand: Expr)
    | Call(name: string, args: seq<Expr>)

  /** One arm of an `if` chain or of a `switch`: a condition or label, and its body. */
  datatype Arm = Arm(test: Expr, body: seq<Stmt>)

  /** The optional `else` body of an `if`, or `default` body of a `switch`. */
  datatype Tail = NoTail | Tail(body: seq<Stmt>)

  datatype Stmt =
    | Import(path: string)
    | Directive(word: string)
    | NumericAudit(path: string)
    | LoopBudget(budget: nat)
    | Function(name: string, params: seq<string>, body: seq<Stmt>)
    | Return(expr: Expr)
    | Assign(name: string, expr: Expr)
    | IndexAssign(name: string, index: Expr, expr: Expr)
    | Expression(expr: Expr)
    | Seal(name: string)
    | For(variable: string, start: Expr, stop: Expr, step: Expr, body: seq<Stmt>)
    | ForEach(variable: string, iterable: Expr, body: seq<Stmt>)
    | Break
    | Continue
    | While(condition: Expr, body: seq<Stmt>)
    | If(arms: seq<Arm>, otherwise: Tail)
    | Switch(selector: Expr, arms: seq<Arm>, otherwise: Tail)
    | InlineRust(block: nat, sha256: string)

  type Program = seq<Stmt>
}
