/** The code generator: the target tree rendered as C-style source text. */
module CodeGen {
  import opened TargetAst

  /** `Array.prototype.join`: the parts in order, `sep` between consecutive ones. */
  function Join(parts: seq<string>, sep: string): string {
    if parts == [] then ""
    else if |parts| == 1 then parts[0]
    else parts[0] + sep + Join(parts[1..], sep)
  }

  /**
   * `codeGen`: a Program is its statements' texts joined the way an array
   * converts to a string (with ","), then ";"; a call is its callee, then
   * its arguments joined with ", " inside parentheses; a number is bare and
   * a string is in single quotes.
   */
  function Generate(n: Node): string
    decreases n, 1
  {
    match n
    case Program(body) => Join(GenerateAll(body), ",") + ";"
    case ExpressionStatement(e) => Generate(e)
    case CallExpression(callee, arguments) => Generate(callee) + "(" + Join(GenerateAll(arguments), ", ") + ")"
    case Identifier(name) => name
    case NumberLiteral(v) => v
    case StringLiteral(v) => "'" + v + "'"
  }

  /** `map(codeGen)`: each node's text, in order. */
  function GenerateAll(ns: seq<Node>): (r: seq<string>)
    ensures |r| == |ns|
    ensures forall k :: 0 <= k < |ns| ==> r[k] == Generate(ns[k])
    decreases ns, 0
  {
    if ns == [] then [] else [Generate(ns[0])] + GenerateAll(ns[1..])
  }
}
