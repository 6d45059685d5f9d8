/** The tree the parsers build (src/calc/parser/mod.rs:36-136): the
    function tags, the syntax tree, the token-to-tag mapping `Fun::from`
    and the fixed arities of `arity!`. */
module Syntax {
  import opened Wrappers
  import opened Tokens

  /** Function tags. The legacy parser's tag set (src/calc/parser.rs:25-54)
      is a subset of this one. */
  datatype Fun =
    | Add | Sub | Div | Mul | Sin | Cos | Tan | Arcsin | Arccos | Arctan
    | Logb | Interp | Aikainterp | Mod | Pow | Aikavali | Abs | Log | Ln
    | Floor | Ceil | Sqrt | Exp | Interpoloi | Min | Max | Sum | Med | Kesk
    | If | SS | List | Pair | Eq | Neq | Lt | Le | Gt | Ge | Empty | Minus | Plus

  /** A syntax tree: an applied function, a number, a getter path, or the
      marker for an empty getter. */
  datatype Ast =
    | Node(children: seq<Ast>, fun: Fun)
    | Leaf(n: real)
    | Get(path: string)
    | Empty

  /** `Fun::from`: the tag a token reduces to. */
  function FunFrom(t: Token): Fun {
    match t
    case Abs => Fun.Abs
    case Add => Fun.Add
    case Aikainterp => Fun.Aikainterp
    case Aikavali => Fun.Aikavali
    case Arccos => Fun.Arccos
    case Arcsin => Fun.Arcsin
    case Arctan => Fun.Arctan
    case Ceil => Fun.Ceil
    case Cos => Fun.Cos
    case Div => Fun.Div
    case Eq => Fun.Eq
    case Exp => Fun.Exp
    case Floor => Fun.Floor
    case Ge => Fun.Ge
    case Gt => Fun.Gt
    case If => Fun.If
    case Imod | Mod => Fun.Mod
    case Interpoloi => Fun.Interpoloi
    case Ipow | Pow => Fun.Pow
    case Kesk => Fun.Kesk
    case Le => Fun.Le
    case List => Fun.List
    case Ln => Fun.Ln
    case Log => Fun.Log
    case Logb => Fun.Logb
    case Lt => Fun.Lt
    case Max => Fun.Max
    case Min => Fun.Min
    case Minus => Fun.Minus
    case Mul => Fun.Mul
    case Neq => Fun.Neq
    case Plus => Fun.Plus
    case SS => Fun.SS
    case Sin => Fun.Sin
    case Sqrt => Fun.Sqrt
    case Sub => Fun.Sub
    case Sum => Fun.Sum
    // the source maps `Tan` to the cosine tag
    case Tan => Fun.Cos
    case _ => Fun.Empty
  }

  /** The number of children `arity!` fixes for a tag; `None` for the tags
      whose child count comes from the arity stack. */
  function FixedArity(f: Fun): Option<nat> {
    match f
    case Add | Sub | Div | Mul | Mod | Pow => Some(2)
    case Eq | Neq | Ge | Gt | Le | Lt => Some(2)
    case Aikavali | Logb => Some(2)
    case Log | Ln | Floor | Ceil | Sqrt | Exp => Some(1)
    case Sin | Cos | Tan | Arcsin | Arccos | Arctan => Some(1)
    case If | Aikainterp => Some(3)
    case Minus | Plus => Some(1)
    case _ => None
  }

  /** The token that spells a tag: the operator spelling for `Mod` and
      `Pow`, `Cos` for the cosine tag, and `Empty` for the tags no token
      reduces to. */
  function TokenFor(f: Fun): Token {
    match f
    case Add => Token.Add
    case Sub => Token.Sub
    case Div => Token.Div
    case Mul => Token.Mul
    case Sin => Token.Sin
    case Cos => Token.Cos
    case Tan => Token.Empty
    case Arcsin => Token.Arcsin
    case Arccos => Token.Arccos
    case Arctan => Token.Arctan
    case Logb => Token.Logb
    case Interp => Token.Empty
    case Aikainterp => Token.Aikainterp
    case Mod => Token.Mod
    case Pow => Token.Pow
    case Aikavali => Token.Aikavali
    case Abs => Token.Abs
    case Log => Token.Log
    case Ln => Token.Ln
    case Floor => Token.Floor
    case Ceil => Token.Ceil
    case Sqrt => Token.Sqrt
    case Exp => Token.Exp
    case Interpoloi => Token.Interpoloi
    case Min => Token.Min
    case Max => Token.Max
    case Sum => Token.Sum
    case Med => Token.Empty
    case Kesk => Token.Kesk
    case If => Token.If
    case SS => Token.SS
    case List => Token.List
    case Pair => Token.Empty
    case Eq => Token.Eq
    case Neq => Token.Neq
    case Lt => Token.Lt
    case Le => Token.Le
    case Gt => Token.Gt
    case Ge => Token.Ge
    case Empty => Token.Empty
    case Minus => Token.Minus
    case Plus => Token.Plus
  }

  // The function tokens other than the merged spellings, in three groups
  // so that each case analysis stays small.

  predicate OperatorToken(t: Token) {
    t.Add?
    || t.Sub?
    || t.Div?
    || t.Mul?
    || t.Mod?
    || t.Pow?
    || t.Plus?
    || t.Minus?
    || t.Eq?
    || t.Neq?
    || t.Lt?
    || t.Le?
    || t.Gt?
    || t.Ge?
  }

  predicate ScalarToken(t: Token) {
    t.Aikavali?
    || t.Aikainterp?
    || t.Abs?
    || t.Log?
    || t.Ln?
    || t.Logb?
    || t.Floor?
    || t.Ceil?
    || t.Sqrt?
    || t.Exp?
    || t.Sin?
    || t.Cos?
    || t.Arcsin?
    || t.Arccos?
    || t.Arctan?
  }

  predicate ReducerToken(t: Token) {
    t.Interpoloi?
    || t.Min?
    || t.Max?
    || t.Sum?
    || t.Kesk?
    || t.If?
    || t.SS?
    || t.List?
  }

  lemma OperatorLeftInverse(t: Token)
    requires OperatorToken(t)
    ensures FunFrom(t) != Fun.Empty
    ensures TokenFor(FunFrom(t)) == t
  {
    match t
    case Add =>
    case Sub =>
    case Div =>
    case Mul =>
    case Mod =>
    case Pow =>
    case Plus =>
    case Minus =>
    case Eq =>
    case Neq =>
    case Lt =>
    case Le =>
    case Gt =>
    case Ge =>
    case _ =>
  }

  lemma ScalarLeftInverse(t: Token)
    requires ScalarToken(t)
    ensures FunFrom(t) != Fun.Empty
    ensures TokenFor(FunFrom(t)) == t
  {
    match t
    case Aikavali =>
    case Aikainterp =>
    case Abs =>
    case Log =>
    case Ln =>
    case Logb =>
    case Floor =>
    case Ceil =>
    case Sqrt =>
    case Exp =>
    case Sin =>
    case Cos =>
    case Arcsin =>
    case Arccos =>
    case Arctan =>
    case _ =>
  }

  lemma ReducerLeftInverse(t: Token)
    requires ReducerToken(t)
    ensures FunFrom(t) != Fun.Empty
    ensures TokenFor(FunFrom(t)) == t
  {
    match t
    case Interpoloi =>
    case Min =>
    case Max =>
    case Sum =>
    case Kesk =>
    case If =>
    case SS =>
    case List =>
    case _ =>
  }

  /** The mapping merges the two spellings of modulo and of power and
      sends `Tan` to `Cos`. */
  lemma FunFromMerges()
    ensures FunFrom(Token.Imod) == FunFrom(Token.Mod) == Fun.Mod
    ensures FunFrom(Token.Ipow) == FunFrom(Token.Pow) == Fun.Pow
    ensures FunFrom(Token.Tan) == Fun.Cos
  {
  }

  /** Exactly the tokens that name no function (structure, operands,
      `Med`, the lexer's brackets) are sent to `Empty`. */
  lemma FunFromEmpty(t: Token)
    ensures FunFrom(t) == Fun.Empty <==>
      t.Med? || t.BrackL? || t.BrackR? || t.ParL? || t.ParR? || t.Comma? || t.Empty?
      || t.Expr? || t.Num?
  {
    if t.Med? || t.BrackL? || t.BrackR? || t.ParL? || t.ParR? || t.Comma? || t.Empty? || t.Expr? || t.Num? {
      UnnamedIsEmpty(t);
    } else {
      NamedIsNotEmpty(t);
    }
  }

  lemma UnnamedIsEmpty(t: Token)
    requires t.Med? || t.BrackL? || t.BrackR? || t.ParL? || t.ParR? || t.Comma? || t.Empty? || t.Expr? || t.Num?
    ensures FunFrom(t) == Fun.Empty
  {
  }

  lemma NamedIsNotEmpty(t: Token)
    requires !(t.Med? || t.BrackL? || t.BrackR? || t.ParL? || t.ParR? || t.Comma? || t.Empty? || t.Expr? || t.Num?)
    ensures FunFrom(t) != Fun.Empty
  {
    if OperatorToken(t) {
      OperatorLeftInverse(t);
    } else if ScalarToken(t) {
      ScalarLeftInverse(t);
    } else if ReducerToken(t) {
      ReducerLeftInverse(t);
    } else {
      assert t.Imod? || t.Ipow? || t.Tan?;
    }
  }

  /** Apart from the merged spellings `Imod`, `Ipow` and `Tan`, the tag of
      a function token determines the token. */
  lemma FunFromLeftInverse(t: Token)
    requires FunFrom(t) != Fun.Empty && !t.Imod? && !t.Ipow? && !t.Tan?
    ensures TokenFor(FunFrom(t)) == t
  {
    if OperatorToken(t) {
      OperatorLeftInverse(t);
    } else if ScalarToken(t) {
      ScalarLeftInverse(t);
    } else if ReducerToken(t) {
      ReducerLeftInverse(t);
    } else {
      assert false;
    }
  }

  /** Distinct function tokens keep distinct tags, except for the merged
      spellings. */
  lemma FunFromInjective(t: Token, u: Token)
    requires FunFrom(t) == FunFrom(u) != Fun.Empty
    ensures || t == u
            || ((t.Imod? || t.Mod?) && (u.Imod? || u.Mod?))
            || ((t.Ipow? || t.Pow?) && (u.Ipow? || u.Pow?))
            || ((t.Tan? || t.Cos?) && (u.Tan? || u.Cos?))
  {
    var mt, mu := t.Imod? || t.Ipow? || t.Tan?, u.Imod? || u.Ipow? || u.Tan?;
    if !mt && !mu {
      FunFromLeftInverse(t);
      FunFromLeftInverse(u);
    } else if !mu {
      FunFromLeftInverse(u);
      MergedSpelling(t);
    } else if !mt {
      FunFromLeftInverse(t);
      MergedSpelling(u);
    }
  }

  /** The merged spellings and the tags they share. */
  lemma MergedSpelling(t: Token)
    requires t.Imod? || t.Ipow? || t.Tan?
    ensures t.Imod? ==> FunFrom(t) == Fun.Mod && TokenFor(Fun.Mod) == Token.Mod
    ensures t.Ipow? ==> FunFrom(t) == Fun.Pow && TokenFor(Fun.Pow) == Token.Pow
    ensures t.Tan? ==> FunFrom(t) == Fun.Cos && TokenFor(Fun.Cos) == Token.Cos
  {
  }

  /** The fixed arities: binary operators and comparisons take two
      children, the one-argument functions and the signs one, `If` and
      `Aikainterp` three. `Abs`, the statistical reducers, `Interpoloi`,
      `List` and the unknown tags take theirs from the arity stack. */
  lemma FixedArities()
    ensures forall f :: FixedArity(f) == Some(2) <==>
      f in {Fun.Add, Fun.Sub, Fun.Div, Fun.Mul, Fun.Mod, Fun.Pow, Fun.Eq, Fun.Neq,
            Fun.Ge, Fun.Gt, Fun.Le, Fun.Lt, Fun.Aikavali, Fun.Logb}
    ensures forall f :: FixedArity(f) == Some(3) <==> f in {Fun.If, Fun.Aikainterp}
    ensures forall f :: FixedArity(f) == None <==>
      f in {Fun.Abs, Fun.Interp, Fun.Interpoloi, Fun.Min, Fun.Max, Fun.Sum, Fun.Med,
            Fun.Kesk, Fun.SS, Fun.List, Fun.Pair, Fun.Empty}
  {
  }
}
