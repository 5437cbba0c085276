/** The tree the transformer builds and the code generator renders. */
module TargetAst {

  datatype Node =
    | Program(body: seq<Node>)
    | ExpressionStatement(expression: Node)
    | CallExpression(callee: Node, arguments: seq<Node>)
    | Identifier(name: string)
    | NumberLiteral(value: string)
    | StringLiteral(value: string)
}
