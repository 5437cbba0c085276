/**
 * Properties of the parser: the tokens of any expression parse back to that
 * expression, an unclosed call is rejected, and walk's loop as the source
 * writes it never leaves a token it has no branch for.
 */
module ParserProps {
  import opened Wrappers
  import opened Lexer
  import opened SourceAst
  import opened Parser

  /** The tokens an expression is read from. */
  function Unparse(n: Node): seq<Token>
    requires IsExpr(n)
  {
    match n
    case CallExpression(name, params) =>
      [Token(Paren, "("), Token(Name, name)] + UnparseAll(params) + [Token(Paren, ")")]
    case NumberLiteral(v) => [Token(Number, v)]
    case StringLiteral(v) => [Token(String, v)]
  }

  function UnparseAll(ns: seq<Node>): seq<Token>
    requires AllExprs(ns)
  {
    if ns == [] then [] else Unparse(ns[0]) + UnparseAll(ns[1..])
  }

  /** An expression's tokens never start with a closing paren. */
  lemma UnparseStart(n: Node)
    requires IsExpr(n)
    ensures |Unparse(n)| > 0 && !IsClose(Unparse(n)[0])
  {
  }

  /** One round of the argument loop: an expression, then the rest of the arguments. */
  lemma ArgsCons(toks: seq<Token>, j: nat, n: Node, mid: nat, ps: seq<Node>, close: nat)
    requires j < mid <= |toks| && !IsClose(toks[j])
    requires WalkFrom(toks, j) == Success(Walked(n, mid - 1))
    requires ArgsFrom(toks, mid) == Success(Args(ps, close))
    ensures ArgsFrom(toks, j) == Success(Args([n] + ps, close))
  {
  }

  /** The tokens `xs` appear in `toks` from position `j` on. */
  predicate TokensAt(toks: seq<Token>, j: nat, xs: seq<Token>) {
    j + |xs| <= |toks| && forall k :: 0 <= k < |xs| ==> toks[j + k] == xs[k]
  }

  lemma TokensAtSplit(toks: seq<Token>, j: nat, a: seq<Token>, b: seq<Token>)
    requires TokensAt(toks, j, a + b)
    ensures TokensAt(toks, j, a) && TokensAt(toks, j + |a|, b)
  {
    forall k | 0 <= k < |a| ensures toks[j + k] == a[k] {
      assert (a + b)[k] == a[k];
    }
    forall k | 0 <= k < |b| ensures toks[j + |a| + k] == b[k] {
      assert (a + b)[|a| + k] == b[k];
    }
  }

  /** The rest of a list of expressions is a list of expressions. */
  lemma TailExprs(ps: seq<Node>)
    requires AllExprs(ps) && ps != []
    ensures IsExpr(ps[0]) && AllExprs(ps[1..])
  {
    forall k | 0 <= k < |ps[1..]| ensures IsExpr(ps[1..][k]) {
      assert ps[1..][k] == ps[k + 1];
    }
  }

  /** walk, with the tokens of `n` under the cursor, returns `n` and stops on its last token. */
  lemma {:induction false} WalkUnparse(toks: seq<Token>, j: nat, n: Node)
    requires IsExpr(n) && TokensAt(toks, j, Unparse(n))
    ensures WalkFrom(toks, j) == Success(Walked(n, j + |Unparse(n)| - 1))
    decreases n, 1
  {
    assert toks[j + 0] == Unparse(n)[0];
    match n
    case NumberLiteral(_) =>
    case StringLiteral(_) =>
    case CallExpression(name, ps) =>
      var head, a, close := [Token(Paren, "("), Token(Name, name)], UnparseAll(ps), [Token(Paren, ")")];
      assert Unparse(n) == head + a + close;
      TokensAtSplit(toks, j, head + a, close);
      assert toks[j + |head + a| + 0] == close[0];
      TokensAtSplit(toks, j, head, a);
      assert toks[j + 1] == head[1];
      ArgsUnparse(toks, j + 2, ps);
  }

  /** The argument loop, with the tokens of `ps` and then a ")" under the cursor, returns `ps` and that paren. */
  lemma {:induction false} ArgsUnparse(toks: seq<Token>, j: nat, ps: seq<Node>)
    requires AllExprs(ps) && TokensAt(toks, j, UnparseAll(ps))
    requires j + |UnparseAll(ps)| < |toks| && IsClose(toks[j + |UnparseAll(ps)|])
    ensures ArgsFrom(toks, j) == Success(Args(ps, j + |UnparseAll(ps)|))
    decreases ps, 0
  {
    if ps != [] {
      var u, rest := Unparse(ps[0]), UnparseAll(ps[1..]);
      TailExprs(ps);
      assert UnparseAll(ps) == u + rest;
      TokensAtSplit(toks, j, u, rest);
      UnparseStart(ps[0]);
      assert toks[j + 0] == u[0];
      WalkUnparse(toks, j, ps[0]);
      ArgsUnparse(toks, j + |u|, ps[1..]);
      ArgsCons(toks, j, ps[0], j + |u|, ps[1..], j + |u| + |rest|);
      assert [ps[0]] + ps[1..] == ps;
    }
  }

  /**
   * The tokens of an expression, followed by anything, parse to a Program
   * holding exactly that expression: parse reads one expression only.
   */
  lemma ParseUnparse(n: Node, rest: seq<Token>)
    requires IsExpr(n)
    ensures ParseTokens(Unparse(n) + rest) == Success(Program([n]))
  {
    TokensAtSplit(Unparse(n) + rest, 0, Unparse(n), rest);
    WalkUnparse(Unparse(n) + rest, 0, n);
  }

  /** A call whose closing paren never comes is rejected rather than built. */
  lemma UnclosedCallFails(toks: seq<Token>, i: nat)
    requires i < |toks| && IsOpen(toks[i])
    requires forall k :: i < k < |toks| ==> !IsClose(toks[k])
    ensures WalkFrom(toks, i).Failure?
  {
  }

  /** A token that walk has no branch for is reported with its position. */
  lemma UnhandledTokenRejected(toks: seq<Token>, i: nat)
    requires i < |toks|
    requires toks[i].kind == Name && toks[i].value != ")"
    ensures WalkFrom(toks, i) == Failure(Unhandled(toks[i], i))
  {
  }

  // ----- walk's loop as the source writes it -----

  /**
   * walk's loop as written, run for at most `fuel` rounds from cursor `i`:
   * the cursor where walk returns (a literal, a call, or past the end), or
   * None if it is still looping when the fuel is spent. A ")" moves the
   * cursor on; any other token that starts no expression leaves it where it is.
   */
  function WalkLoopAsWritten(toks: seq<Token>, i: nat, fuel: nat): Option<nat>
    decreases fuel
  {
    if i >= |toks| then Some(i)
    else
      var t := toks[i];
      if t.kind == Number || t.kind == String || IsOpen(t) then Some(i)
      else if fuel == 0 then None
      else if t.value == ")" then WalkLoopAsWritten(toks, i + 1, fuel - 1)
      else WalkLoopAsWritten(toks, i, fuel - 1)
  }

  /** As written, walk on a name token never returns. */
  lemma {:induction false} WalkLoopStallsOnName(toks: seq<Token>, i: nat, fuel: nat)
    requires i < |toks|
    requires toks[i].kind == Name && toks[i].value != ")"
    ensures WalkLoopAsWritten(toks, i, fuel) == None
    decreases fuel
  {
    if fuel > 0 {
      WalkLoopStallsOnName(toks, i, fuel - 1);
    }
  }
}
