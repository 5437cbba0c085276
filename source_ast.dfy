/** The tree the parser builds: nested calls over number and string literals. */
module SourceAst {

  datatype Node =
    | Program(body: seq<Node>)
    | CallExpression(name: string, params: seq<Node>)
    | NumberLiteral(value: string)
    | StringLiteral(value: string)

  /** A call or a literal, with no Program anywhere inside it. */
  predicate IsExpr(n: Node) {
    match n
    case Program(_) => false
    case CallExpression(_, params) => AllExprs(params)
    case _ => true
  }

  predicate AllExprs(ns: seq<Node>) {
    forall k :: 0 <= k < |ns| ==> IsExpr(ns[k])
  }

  /** What the parser returns: a Program holding expressions. */
  predicate IsProgram(n: Node) {
    n.Program? && AllExprs(n.body)
  }
}
