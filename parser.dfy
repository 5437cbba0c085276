/**
 * The parser: recursive descent over the tokens with one shared cursor.
 * `walk` reads one expression and leaves the cursor on its last token.
 */
module Parser {
  import opened Wrappers
  import opened Lexer
  import opened SourceAst

  datatype ParseError =
    | UnexpectedEnd(pos: nat)          // walk ran past the last token and returned undefined
    | MissingCallee(pos: nat)          // "(" was the last token: the callee read is undefined
    | MissingCloseParen(pos: nat)      // the tokens ran out inside a call's arguments
    | Unhandled(token: Token, pos: nat) // a token none of walk's branches handles

  /** An expression and the index of its last token. */
  datatype Walked = Walked(node: Node, last: nat)

  /** A call's parameters and the index of its closing paren. */
  datatype Args = Args(params: seq<Node>, close: nat)

  predicate IsOpen(t: Token) {
    t.kind == Paren && t.value == "("
  }

  predicate IsClose(t: Token) {
    t.kind == Paren && t.value == ")"
  }

  /**
   * `walk` with the cursor at `i`: a literal token is a leaf; "(" starts a
   * call named by the next token, whatever its kind; a ")" is stepped over.
   */
  function WalkFrom(toks: seq<Token>, i: nat): (r: Result<Walked, ParseError>)
    requires i <= |toks|
    ensures r.Success? ==> i <= r.value.last < |toks| && IsExpr(r.value.node)
    ensures r.Success? && r.value.node.CallExpression? ==> IsClose(toks[r.value.last])
    ensures r.Success? && r.value.node.NumberLiteral? ==> toks[r.value.last] == Token(Number, r.value.node.value)
    ensures r.Success? && r.value.node.StringLiteral? ==> toks[r.value.last] == Token(String, r.value.node.value)
    decreases |toks| - i, 0
  {
    if i == |toks| then Failure(UnexpectedEnd(i))
    else
      var t := toks[i];
      if t.kind == Number then Success(Walked(NumberLiteral(t.value), i))
      else if t.kind == String then Success(Walked(StringLiteral(t.value), i))
      else if IsOpen(t) then
        if i + 1 == |toks| then Failure(MissingCallee(i + 1))
        else
          match ArgsFrom(toks, i + 2)
          case Failure(e) => Failure(e)
          case Success(a) => Success(Walked(CallExpression(toks[i + 1].value, a.params), a.close))
      else if t.value == ")" then WalkFrom(toks, i + 1)
      else Failure(Unhandled(t, i))
  }

  /** The argument loop of a call, from `j` up to and including its closing paren. */
  function ArgsFrom(toks: seq<Token>, j: nat): (r: Result<Args, ParseError>)
    requires j <= |toks|
    ensures r.Success? ==> j <= r.value.close < |toks| && IsClose(toks[r.value.close])
    ensures r.Success? ==> AllExprs(r.value.params)
    decreases |toks| - j, 1
  {
    if j == |toks| then Failure(MissingCloseParen(j))
    else if IsClose(toks[j]) then Success(Args([], j))
    else
      match WalkFrom(toks, j)
      case Failure(e) => Failure(e)
      case Success(w) =>
        match ArgsFrom(toks, w.last + 1)
        case Failure(e) => Failure(e)
        case Success(a) => Success(Args([w.node] + a.params, a.close))
  }

  /** `parse`: one walk from the first token; its node is the Program's only statement. */
  function ParseTokens(tokens: seq<Token>): (r: Result<Node, ParseError>)
    ensures r.Success? ==> IsProgram(r.value) && |r.value.body| == 1
  {
    match WalkFrom(tokens, 0)
    case Failure(e) => Failure(e)
    case Success(w) => Success(Program([w.node]))
  }

  /** The parameters `ps` in front of whatever `r` holds. */
  function WithParams(ps: seq<Node>, r: Result<Args, ParseError>): Result<Args, ParseError> {
    match r
    case Success(a) => Success(Args(ps + a.params, a.close))
    case Failure(e) => Failure(e)
  }

  lemma WithParamsPush(ps: seq<Node>, n: Node, r: Result<Args, ParseError>)
    ensures WithParams(ps, WithParams([n], r)) == WithParams(ps + [n], r)
  {
    if r.Success? {
      assert ps + ([n] + r.value.params) == (ps + [n]) + r.value.params;
    }
  }

  /** One round of the argument loop: an expression, then the rest of the arguments. */
  lemma ArgsStep(toks: seq<Token>, j: nat)
    requires j < |toks| && !IsClose(toks[j])
    ensures WalkFrom(toks, j).Failure? ==> ArgsFrom(toks, j) == Failure(WalkFrom(toks, j).error)
    ensures WalkFrom(toks, j).Success? ==>
              ArgsFrom(toks, j) == WithParams([WalkFrom(toks, j).value.node], ArgsFrom(toks, WalkFrom(toks, j).value.last + 1))
  {
  }

  /** walk at a "(": the callee's token, then the argument loop from the token after it. */
  lemma CallStep(toks: seq<Token>, i: nat)
    requires i < |toks| && IsOpen(toks[i])
    ensures i + 1 == |toks| ==> WalkFrom(toks, i) == Failure(MissingCallee(i + 1))
    ensures i + 1 < |toks| && ArgsFrom(toks, i + 2).Failure? ==> WalkFrom(toks, i) == Failure(ArgsFrom(toks, i + 2).error)
    ensures i + 1 < |toks| && ArgsFrom(toks, i + 2).Success? ==>
              WalkFrom(toks, i) == Success(Walked(CallExpression(toks[i + 1].value, ArgsFrom(toks, i + 2).value.params), ArgsFrom(toks, i + 2).value.close))
  {
  }

  /** The state `walk` closes over: the tokens and the shared cursor. */
  class WalkState {
    const tokens: seq<Token>
    var pos: nat

    constructor (tokens: seq<Token>)
      ensures this.tokens == tokens && pos == 0
    {
      this.tokens := tokens;
      pos := 0;
    }

    /** `walk`: reads one expression and leaves the cursor on its last token. */
    method Walk() returns (r: Result<Node, ParseError>)
      requires pos <= |tokens|
      modifies this
      ensures match WalkFrom(tokens, old(pos))
              case Success(w) => r == Success(w.node) && pos == w.last
              case Failure(e) => r == Failure(e)
      decreases |tokens| - pos, 1
    {
      while pos < |tokens|
        invariant old(pos) <= pos <= |tokens|
        invariant WalkFrom(tokens, pos) == WalkFrom(tokens, old(pos))
        decreases |tokens| - pos
      {
        var token := tokens[pos];
        if token.kind == Number {
          return Success(NumberLiteral(token.value));
        }
        if token.kind == String {
          return Success(StringLiteral(token.value));
        }
        if IsOpen(token) {
          r := WalkCall();
          return;
        }
        if token.value == ")" {
          pos := pos + 1;
        } else {
          return Failure(Unhandled(token, pos));
        }
      }
      return Failure(UnexpectedEnd(pos));
    }

    /** walk's branch at "(": the callee's token, then arguments up to the closing paren. */
    method WalkCall() returns (r: Result<Node, ParseError>)
      requires pos < |tokens| && IsOpen(tokens[pos])
      modifies this
      ensures match WalkFrom(tokens, old(pos))
              case Success(w) => r == Success(w.node) && pos == w.last
              case Failure(e) => r == Failure(e)
      decreases |tokens| - pos, 0
    {
      ghost var at := pos;
      CallStep(tokens, at);
      pos := pos + 1;
      if pos == |tokens| {
        return Failure(MissingCallee(pos));
      }
      var node := CallExpression(tokens[pos].value, []);
      pos := pos + 1;
      assert WithParams([], ArgsFrom(tokens, pos)) == ArgsFrom(tokens, pos) by {
        if ArgsFrom(tokens, pos).Success? {
          assert [] + ArgsFrom(tokens, pos).value.params == ArgsFrom(tokens, pos).value.params;
        }
      }
      while !(pos < |tokens| && IsClose(tokens[pos]))
        invariant at + 2 <= pos <= |tokens| && old(pos) == at
        invariant node.CallExpression? && node.name == tokens[at + 1].value
        invariant ArgsFrom(tokens, at + 2) == WithParams(node.params, ArgsFrom(tokens, pos))
        decreases |tokens| - pos
      {
        if pos == |tokens| {
          return Failure(MissingCloseParen(pos));
        }
        ghost var before := pos;
        ArgsStep(tokens, before);
        var param := Walk();
        if param.Failure? {
          return Failure(param.error);
        }
        assert WalkFrom(tokens, before) == Success(Walked(param.value, pos));
        assert ArgsFrom(tokens, before) == WithParams([param.value], ArgsFrom(tokens, pos + 1));
        WithParamsPush(node.params, param.value, ArgsFrom(tokens, pos + 1));
        node := node.(params := node.params + [param.value]);
        pos := pos + 1;
      }
      assert node.params + [] == node.params;
      return Success(node);
    }
  }

  /** `parse`: a fresh cursor, one walk, and the Program around its node. */
  method Parse(tokens: seq<Token>) returns (r: Result<Node, ParseError>)
    ensures r == ParseTokens(tokens)
  {
    var state := new WalkState(tokens);
    var node := state.Walk();
    if node.Failure? {
      return Failure(node.error);
    }
    return Success(Program([node.value]));
  }
}
