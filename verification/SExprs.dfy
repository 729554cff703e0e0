/** The trees that the reader produces and the solver interprets. */
module SExprs {

  /** `Float` keeps the literal's text: floating point values are not computed with. */
  datatype SExpr =
    | Sym(name: string)
    | Str(text: string)
    | Int(n: int)
    | Float(literal: string)
    | List(items: seq<SExpr>)
}
