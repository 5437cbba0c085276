/**
 * The transformer: a visitor run by the traverser that builds the target
 * tree. Each call becomes a call of an identifier; a call directly under
 * the Program is wrapped in an expression statement; literals are copied.
 *
 * The source has each node write into its parent's `_context` array. Here
 * that array is an explicit accumulator: the Program's body, plus one
 * frame per call entered and not yet left, whose arguments collect the
 * children's translations. Leaving a call closes its frame and appends the
 * finished call to the accumulator below it.
 */
module Transformer {
  import opened Wrappers
  import S = SourceAst
  import T = TargetAst
  import Tr = Traverser

  /** A call entered but not yet left: its name, whether it becomes a statement, its arguments so far. */
  datatype Frame = Frame(callee: string, statement: bool, arguments: seq<T.Node>)

  /** The accumulators of a traversal: the new Program's body and the open calls, innermost last. */
  datatype Context = Context(body: seq<T.Node>, open: seq<Frame>)

  /** `parent._context.push(t)`: into the innermost open call's arguments, or into the body. */
  function Push(ctx: Context, t: T.Node): (r: Context)
    ensures |r.open| == |ctx.open|
  {
    if ctx.open == [] then ctx.(body := ctx.body + [t])
    else
      var f := ctx.open[|ctx.open| - 1];
      ctx.(open := ctx.open[..|ctx.open| - 1] + [f.(arguments := f.arguments + [t])])
  }

  /** The `enter` callbacks: a literal is copied into its parent's accumulator; a call opens a frame. */
  function Enter(node: S.Node, parent: Option<S.Node>, ctx: Context): (r: Context)
    ensures |r.open| == |ctx.open| + (if node.CallExpression? then 1 else 0)
    ensures node.CallExpression? ==> r.body == ctx.body && r.open[..|ctx.open|] == ctx.open
  {
    match node
    case NumberLiteral(v) => Push(ctx, T.NumberLiteral(v))
    case StringLiteral(v) => Push(ctx, T.StringLiteral(v))
    case CallExpression(name, _) =>
      var statement := !(parent.Some? && parent.value.CallExpression?);
      ctx.(open := ctx.open + [Frame(name, statement, [])])
    case Program(_) => ctx
  }

  /** Leaving a call closes its frame and hands the finished call to the accumulator below. */
  function Exit(node: S.Node, parent: Option<S.Node>, ctx: Context): (r: Context)
    ensures node.CallExpression? && ctx.open != [] ==> |r.open| == |ctx.open| - 1
    ensures !node.CallExpression? ==> r == ctx
  {
    if node.CallExpression? && ctx.open != [] then
      var f := ctx.open[|ctx.open| - 1];
      var call := T.CallExpression(T.Identifier(f.callee), f.arguments);
      Push(ctx.(open := ctx.open[..|ctx.open| - 1]), if f.statement then T.ExpressionStatement(call) else call)
    else ctx
  }

  const Transformation: Tr.Visitor<Context> := Tr.Visitor(Enter, Exit)

  /** `transform`: traverse the parser's Program and return a fresh Program of what reached its body. */
  function Transform(ast: S.Node): (r: T.Node)
    requires S.IsProgram(ast)
    ensures r.Program?
  {
    T.Program(Tr.TraverseNode(Transformation, ast, None, Context([], [])).body)
  }

  // ----- The reference translation -----

  /** An expression's translation: calls of identifiers with translated arguments, literals copied. */
  function TransformExpr(n: S.Node): T.Node
    requires S.IsExpr(n)
  {
    match n
    case CallExpression(name, params) => T.CallExpression(T.Identifier(name), TransformAll(params))
    case NumberLiteral(v) => T.NumberLiteral(v)
    case StringLiteral(v) => T.StringLiteral(v)
  }

  function TransformAll(ns: seq<S.Node>): (r: seq<T.Node>)
    requires S.AllExprs(ns)
    ensures |r| == |ns|
    ensures forall k :: 0 <= k < |ns| ==> r[k] == TransformExpr(ns[k])
  {
    if ns == [] then [] else [TransformExpr(ns[0])] + TransformAll(ns[1..])
  }

  /** What an expression turns into where it sits: a call outside any call becomes a statement. */
  function Placed(n: S.Node, underCall: bool): T.Node
    requires S.IsExpr(n)
  {
    if n.CallExpression? && !underCall then T.ExpressionStatement(TransformExpr(n)) else TransformExpr(n)
  }

  function PlacedAll(ns: seq<S.Node>, underCall: bool): (r: seq<T.Node>)
    requires S.AllExprs(ns)
    ensures |r| == |ns|
    ensures forall k :: 0 <= k < |ns| ==> r[k] == Placed(ns[k], underCall)
  {
    if ns == [] then [] else [Placed(ns[0], underCall)] + PlacedAll(ns[1..], underCall)
  }

  /** The whole Program's translation: each top-level expression where it sits. */
  function TransformSpec(ast: S.Node): T.Node
    requires S.IsProgram(ast)
  {
    T.Program(PlacedAll(ast.body, false))
  }

  // ----- The visitor computes the reference translation -----

  function PushAll(ctx: Context, ts: seq<T.Node>): Context
    decreases |ts|
  {
    if ts == [] then ctx else PushAll(Push(ctx, ts[0]), ts[1..])
  }

  /** Pushes with a frame open all land in that frame's arguments. */
  lemma {:induction false} PushAllFrame(ctx: Context, f: Frame, ts: seq<T.Node>)
    ensures PushAll(ctx.(open := ctx.open + [f]), ts) == ctx.(open := ctx.open + [f.(arguments := f.arguments + ts)])
    decreases |ts|
  {
    if ts == [] {
      assert f.arguments + ts == f.arguments;
    } else {
      var g := f.(arguments := f.arguments + [ts[0]]);
      assert (ctx.open + [f])[..|ctx.open|] == ctx.open;
      assert Push(ctx.(open := ctx.open + [f]), ts[0]) == ctx.(open := ctx.open + [g]);
      PushAllFrame(ctx, g, ts[1..]);
      assert g.arguments + ts[1..] == f.arguments + ts;
    }
  }

  /** Pushes with no frame open all land in the body. */
  lemma {:induction false} PushAllBody(ctx: Context, ts: seq<T.Node>)
    requires ctx.open == []
    ensures PushAll(ctx, ts) == ctx.(body := ctx.body + ts)
    decreases |ts|
  {
    if ts == [] {
      assert ctx.body + ts == ctx.body;
    } else {
      PushAllBody(ctx.(body := ctx.body + [ts[0]]), ts[1..]);
      assert ctx.body + [ts[0]] + ts[1..] == ctx.body + ts;
    }
  }

  lemma PlacedUnderCall(ns: seq<S.Node>)
    requires S.AllExprs(ns)
    ensures PlacedAll(ns, true) == TransformAll(ns)
  {
  }

  /** Traversing an expression appends its translation, placed by its parent, to the current accumulator. */
  lemma {:induction false} TraverseExpr(n: S.Node, p: S.Node, ctx: Context)
    requires S.IsExpr(n)
    ensures Tr.TraverseNode(Transformation, n, Some(p), ctx) == Push(ctx, Placed(n, p.CallExpression?))
    decreases n, 1
  {
    match n
    case NumberLiteral(_) =>
    case StringLiteral(_) =>
    case CallExpression(name, ps) =>
      var f := Frame(name, !p.CallExpression?, []);
      var entered := ctx.(open := ctx.open + [f]);
      assert Enter(n, Some(p), ctx) == entered;
      TraverseExprs(ps, n, entered);
      PlacedUnderCall(ps);
      PushAllFrame(ctx, f, TransformAll(ps));
      var visited := Tr.TraverseArray(Transformation, ps, n, entered);
      assert f.arguments + TransformAll(ps) == TransformAll(ps);
      CloseCall(n, p, ctx);
      assert Tr.TraverseNode(Transformation, n, Some(p), ctx) == Exit(n, Some(p), visited);
  }

  /** Leaving a call whose frame holds its translated parameters pushes the call, placed by its parent. */
  lemma CloseCall(n: S.Node, p: S.Node, ctx: Context)
    requires S.IsExpr(n) && n.CallExpression?
    ensures Exit(n, Some(p), ctx.(open := ctx.open + [Frame(n.name, !p.CallExpression?, TransformAll(n.params))]))
            == Push(ctx, Placed(n, p.CallExpression?))
  {
    var done := Frame(n.name, !p.CallExpression?, TransformAll(n.params));
    assert (ctx.open + [done])[..|ctx.open|] == ctx.open;
  }

  lemma {:induction false} TraverseExprs(ns: seq<S.Node>, p: S.Node, ctx: Context)
    requires S.AllExprs(ns)
    ensures Tr.TraverseArray(Transformation, ns, p, ctx) == PushAll(ctx, PlacedAll(ns, p.CallExpression?))
    decreases ns, 0
  {
    if ns != [] {
      TraverseExpr(ns[0], p, ctx);
      TraverseExprs(ns[1..], p, Push(ctx, Placed(ns[0], p.CallExpression?)));
      assert PlacedAll(ns, p.CallExpression?)[1..] == PlacedAll(ns[1..], p.CallExpression?);
    }
  }

  /** The visitor-driven transform builds exactly the reference translation. */
  lemma TransformCorrect(ast: S.Node)
    requires S.IsProgram(ast)
    ensures Transform(ast) == TransformSpec(ast)
  {
    var start := Context([], []);
    TraverseExprs(ast.body, ast, start);
    PushAllBody(start, PlacedAll(ast.body, false));
    assert [] + PlacedAll(ast.body, false) == PlacedAll(ast.body, false);
  }

  // ----- The translation keeps the tree's shape -----

  /** A translated expression: calls of identifiers over literals, with no statement or Program inside. */
  predicate IsTargetExpr(t: T.Node) {
    match t
    case CallExpression(callee, arguments) =>
      callee.Identifier? && forall k :: 0 <= k < |arguments| ==> IsTargetExpr(arguments[k])
    case NumberLiteral(_) => true
    case StringLiteral(_) => true
    case _ => false
  }

  /** The source expression a translated expression came from. */
  function Restore(t: T.Node): (n: S.Node)
    requires IsTargetExpr(t)
  {
    match t
    case CallExpression(callee, arguments) => S.CallExpression(callee.name, RestoreAll(arguments))
    case NumberLiteral(v) => S.NumberLiteral(v)
    case StringLiteral(v) => S.StringLiteral(v)
  }

  function RestoreAll(ts: seq<T.Node>): (ns: seq<S.Node>)
    requires forall k :: 0 <= k < |ts| ==> IsTargetExpr(ts[k])
    ensures |ns| == |ts|
    ensures forall k :: 0 <= k < |ts| ==> ns[k] == Restore(ts[k])
  {
    if ts == [] then [] else [Restore(ts[0])] + RestoreAll(ts[1..])
  }

  /**
   * Every call becomes a call of an identifier with the same name and the
   * translated parameters in order, every literal keeps its value, and no
   * statement appears below the top level: restoring gives the expression back.
   */
  lemma {:induction false} TransformShape(n: S.Node)
    requires S.IsExpr(n)
    ensures IsTargetExpr(TransformExpr(n))
    ensures Restore(TransformExpr(n)) == n
    decreases n, 1
  {
    match n
    case NumberLiteral(_) =>
    case StringLiteral(_) =>
    case CallExpression(_, ps) => TransformShapeAll(ps);
  }

  lemma {:induction false} TransformShapeAll(ns: seq<S.Node>)
    requires S.AllExprs(ns)
    ensures forall k :: 0 <= k < |ns| ==> IsTargetExpr(TransformAll(ns)[k])
    ensures RestoreAll(TransformAll(ns)) == ns
    decreases ns, 0
  {
    var ts := TransformAll(ns);
    forall k | 0 <= k < |ns| ensures IsTargetExpr(ts[k]) && Restore(ts[k]) == ns[k] {
      TransformShape(ns[k]);
    }
    assert RestoreAll(ts) == ns;
  }

  /**
   * The Program the transformer returns: one element per top-level
   * expression, an expression statement exactly where that expression is a
   * call, holding the expression's translation.
   */
  lemma TransformProgram(ast: S.Node)
    requires S.IsProgram(ast)
    ensures |Transform(ast).body| == |ast.body|
    ensures forall k :: 0 <= k < |ast.body| ==>
      var t := Transform(ast).body[k];
      (t.ExpressionStatement? <==> ast.body[k].CallExpression?)
      && IsTargetExpr(if t.ExpressionStatement? then t.expression else t)
      && Restore(if t.ExpressionStatement? then t.expression else t) == ast.body[k]
  {
    TransformCorrect(ast);
    forall k | 0 <= k < |ast.body|
      ensures IsTargetExpr(TransformExpr(ast.body[k])) && Restore(TransformExpr(ast.body[k])) == ast.body[k]
    {
      TransformShape(ast.body[k]);
    }
  }
}
