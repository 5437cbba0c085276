/**
 * The compiler: tokenize, parse, transform and generate, in that order;
 * the first stage that fails stops the pipeline.
 */
module Compiler {
  import opened Wrappers
  import opened Lexer
  import S = SourceAst
  import Parser
  import Transformer
  import CodeGen
  import LexerProps
  import ParserProps

  datatype CompileError = LexFailed(lex: LexError) | ParseFailed(parse: Parser.ParseError)

  /** The output for `input`: C-style text ending in ";", or the error of the stage that stopped. */
  function Compiled(input: string): (r: Result<string, CompileError>)
    ensures r.Success? ==> |r.value| > 0 && r.value[|r.value| - 1] == ';'
    ensures Lex(input).Failure? ==> r == Failure(LexFailed(Lex(input).error))
  {
    match Lex(input)
    case Failure(e) => Failure(LexFailed(e))
    case Success(tokens) =>
      match Parser.ParseTokens(tokens)
      case Failure(e) => Failure(ParseFailed(e))
      case Success(ast) => Success(CodeGen.Generate(Transformer.Transform(ast)))
  }

  /** `compiler`: the four stages run one after the other. */
  method Compile(input: string) returns (r: Result<string, CompileError>)
    ensures r == Compiled(input)
  {
    var tokens := Tokenize(input);
    if tokens.Failure? {
      return Failure(LexFailed(tokens.error));
    }
    var ast := Parser.Parse(tokens.value);
    if ast.Failure? {
      return Failure(ParseFailed(ast.error));
    }
    var newAst := Transformer.Transform(ast.value);
    return Success(CodeGen.Generate(newAst));
  }

  // ----- What a compiled expression looks like -----

  /** C-style call syntax written directly on the source tree: `name(arg, arg)`, `'text'`, digits. */
  function CStyle(n: S.Node): string
    requires S.IsExpr(n)
    decreases n, 1
  {
    match n
    case CallExpression(name, params) => name + "(" + CodeGen.Join(CStyleAll(params), ", ") + ")"
    case NumberLiteral(v) => v
    case StringLiteral(v) => "'" + v + "'"
  }

  function CStyleAll(ns: seq<S.Node>): (r: seq<string>)
    requires S.AllExprs(ns)
    ensures |r| == |ns|
    decreases ns, 0
  {
    if ns == [] then [] else [CStyle(ns[0])] + CStyleAll(ns[1..])
  }

  /** Rendering a translated expression gives its C-style syntax. */
  lemma {:induction false} GenerateTransformed(n: S.Node)
    requires S.IsExpr(n)
    ensures CodeGen.Generate(Transformer.TransformExpr(n)) == CStyle(n)
    decreases n, 1
  {
    match n
    case NumberLiteral(_) =>
    case StringLiteral(_) =>
    case CallExpression(_, ps) => GenerateTransformedAll(ps);
  }

  lemma {:induction false} GenerateTransformedAll(ns: seq<S.Node>)
    requires S.AllExprs(ns)
    ensures CodeGen.GenerateAll(Transformer.TransformAll(ns)) == CStyleAll(ns)
    decreases ns, 0
  {
    if ns != [] {
      GenerateTransformed(ns[0]);
      GenerateTransformedAll(ns[1..]);
      assert Transformer.TransformAll(ns)[1..] == Transformer.TransformAll(ns[1..]);
    }
  }

  /** An expression whose names, numbers and strings are all ones the lexer can produce. */
  predicate WellFormed(n: S.Node) {
    S.IsExpr(n) && AllValid(ParserProps.Unparse(n))
  }

  /** Input that lexes to an expression's tokens compiles to its C-style syntax followed by ";". */
  lemma CompileTokens(input: string, n: S.Node)
    requires S.IsExpr(n)
    requires Lex(input) == Success(ParserProps.Unparse(n))
    ensures Compiled(input) == Success(CStyle(n) + ";")
  {
    var tokens := ParserProps.Unparse(n);
    ParserProps.ParseUnparse(n, []);
    assert tokens + [] == tokens;
    var ast := S.Program([n]);
    Transformer.TransformCorrect(ast);
    assert Transformer.PlacedAll([n], false) == [Transformer.Placed(n, false)];
    GenerateTransformed(n);
  }

  /**
   * Compiling an expression written out as source text, one space after each
   * token, yields that expression's C-style syntax followed by ";".
   */
  lemma CompileExpression(n: S.Node)
    requires WellFormed(n)
    ensures Compiled(LexerProps.Unlex(ParserProps.Unparse(n))) == Success(CStyle(n) + ";")
  {
    LexerProps.LexUnlex(ParserProps.Unparse(n));
    CompileTokens(LexerProps.Unlex(ParserProps.Unparse(n)), n);
  }

  /** The expression of the source's opening example. */
  const AddTwoFour := S.CallExpression("add", [S.NumberLiteral("2"), S.NumberLiteral("4")])

  /** The text of the example the source opens with. */
  const AddSource: string := "(add 2 4)"

  /** Text spelled like the example: `(add 2 4)`, character by character. */
  predicate SpellsAddExample(s: string) {
    |s| == 9 && s[0] == '(' && s[1] == 'a' && s[2] == 'd' && s[3] == 'd' && s[4] == ' '
    && s[5] == '2' && s[6] == ' ' && s[7] == '4' && s[8] == ')'
  }

  /** The example's text from its first number on, `2 4)`: a number, a number and a paren. */
  lemma AddExampleTail(s: string)
    requires SpellsAddExample(s)
    ensures LexFrom(s, 5) == Success([Token(Number, "2"), Token(Number, "4"), Token(Paren, ")")])
  {
    var close, four, two := Token(Paren, ")"), Token(Number, "4"), Token(Number, "2");
    assert LexFrom(s, 9) == Success([]);
    LexerProps.ParenAndSpaceStep(s, 8);
    assert [s[8]] == ")";
    assert [close] + [] == [close];
    assert LexFrom(s, 8) == Success([close]);
    LexerProps.DigitRunToken(s, 7, 8);
    assert s[7..8] == "4";
    assert [four] + [close] == [four, close];
    assert LexFrom(s, 7) == Success([four, close]);
    LexerProps.ParenAndSpaceStep(s, 6);
    LexerProps.DigitRunToken(s, 5, 6);
    assert s[5..6] == "2";
    assert [two] + [four, close] == [two, four, close];
  }

  /** The example's text from its callee on, `add 2 4)`: a name, then the tail's tokens. */
  lemma AddExampleName(s: string)
    requires SpellsAddExample(s)
    ensures LexFrom(s, 1) == Success([Token(Name, "add"), Token(Number, "2"), Token(Number, "4"), Token(Paren, ")")])
  {
    var tail := [Token(Number, "2"), Token(Number, "4"), Token(Paren, ")")];
    forall k | 1 <= k < 4 ensures IsWordChar(s[k]) {
    }
    AddExampleTail(s);
    LexerProps.ParenAndSpaceStep(s, 4);
    LexerProps.NameRunToken(s, 1, 4);
    assert s[1..4] == "add";
    assert [Token(Name, "add")] + tail == [Token(Name, "add"), Token(Number, "2"), Token(Number, "4"), Token(Paren, ")")];
  }

  /** Text spelled like the example lexes to the tokens of the example's expression. */
  lemma AddExampleHead(s: string)
    requires SpellsAddExample(s)
    ensures LexFrom(s, 0) == Success([Token(Paren, "("), Token(Name, "add"), Token(Number, "2"), Token(Number, "4"), Token(Paren, ")")])
  {
    var rest := [Token(Name, "add"), Token(Number, "2"), Token(Number, "4"), Token(Paren, ")")];
    AddExampleName(s);
    LexerProps.ParenAndSpaceStep(s, 0);
    assert [s[0]] == "(";
    assert [Token(Paren, "(")] + rest == [Token(Paren, "("), Token(Name, "add"), Token(Number, "2"), Token(Number, "4"), Token(Paren, ")")];
  }

  lemma AddExampleLexes()
    ensures Lex(AddSource) == Success(ParserProps.Unparse(AddTwoFour))
  {
    AddExampleHead(AddSource);
    AddExampleTokens();
  }

  /** The tokens the example's expression is read from. */
  lemma AddExampleTokens()
    ensures ParserProps.Unparse(AddTwoFour) == [Token(Paren, "("), Token(Name, "add"), Token(Number, "2"), Token(Number, "4"), Token(Paren, ")")]
  {
    var ps := AddTwoFour.params;
    assert ParserProps.UnparseAll(ps[1..]) == [Token(Number, "4")] by {
      assert ps[1..][1..] == [];
    }
    assert ParserProps.UnparseAll(ps) == [Token(Number, "2"), Token(Number, "4")];
  }

  lemma AddExampleRenders()
    ensures CStyle(AddTwoFour) + ";" == "add(2, 4);"
  {
    assert CStyleAll(AddTwoFour.params) == ["2", "4"] by {
      assert CStyleAll(AddTwoFour.params[1..]) == ["4"];
    }
    assert CodeGen.Join(["2", "4"], ", ") == "2, 4" by {
      assert ["2", "4"][1..] == ["4"];
    }
    assert CStyle(AddTwoFour) == "add" + "(" + "2, 4" + ")";
  }

  /** The example the source opens with: `(add 2 4)` compiles to `add(2, 4);`. */
  lemma AddExample()
    ensures Compiled("(add 2 4)") == Success("add(2, 4);")
  {
    AddExampleLexes();
    CompileTokens(AddSource, AddTwoFour);
    AddExampleRenders();
  }
}
