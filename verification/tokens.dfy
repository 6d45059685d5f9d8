/** The token alphabet shared by the lexer, the prefix rewrite and both
    parsers (src/calc/lexer.rs:3-34, extended by the variants the parsers
    match on in src/calc/parser/mod.rs:95-133 and 193-250). */
module Tokens {

  datatype Token =
    // arithmetic; `Imod`/`Ipow` are the infix spellings the parser knows,
    // `Plus`/`Minus` the unary signs it introduces
    | Add | Sub | Div | Mul | Mod | Pow | Imod | Ipow | Plus | Minus
    // comparisons
    | Eq | Neq | Lt | Le | Gt | Ge
    // named functions
    | Aikavali | Aikainterp | Abs | Log | Ln | Logb | Floor | Ceil | Sqrt | Exp
    | Sin | Cos | Tan | Arcsin | Arccos | Arctan
    | Interpoloi | Min | Max | Sum | Med | Kesk | If | SS | List
    // structure
    | ParL | ParR | BrackL | BrackR | Comma
    // operands and the sentinel
    | Expr(path: string) | Num(n: real) | Empty

  /** The variants the lexer's own `Token` enum declares. */
  predicate InLexerAlphabet(t: Token) {
    match t
    case Add | Sub | Div | Mul | Mod | Pow => true
    case Aikavali | Abs | Log | Ln | Floor | Ceil | Sqrt | Exp => true
    case Interpoloi | Min | Max | Sum | Med | Kesk | If | SS => true
    case ParL | ParR | BrackL | BrackR | Comma => true
    case Expr(_) | Num(_) | Empty => true
    case _ => false
  }

  /** The six tokens the prefix rewrite treats as infix operators. */
  predicate IsInfixOperator(t: Token) {
    t.Sub? || t.Add? || t.Div? || t.Mul? || t.Mod? || t.Pow?
  }
}
