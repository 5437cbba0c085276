/**
 * The lexer: raw text to an ordered sequence of paren, name, number and
 * string tokens, scanned left to right with one cursor.
 */
module Lexer {
  import opened Wrappers

  /** The regular expression `\d`: an ASCII decimal digit. */
  predicate IsDigit(c: char) {
    '0' <= c <= '9'
  }

  /** The regular expression `\w` (the `i` flag changes nothing): ASCII letter, digit or underscore. */
  predicate IsWordChar(c: char) {
    'a' <= c <= 'z' || 'A' <= c <= 'Z' || IsDigit(c) || c == '_'
  }

  /** The regular expression `\s`: ECMAScript white space and line terminators. */
  predicate IsWhitespace(c: char) {
    c == ' ' || c == '\t' || c == '\n' || c == '\r' || c == '\U{000B}' || c == '\U{000C}'
    || c == '\U{00A0}' || c == '\U{1680}' || ('\U{2000}' <= c <= '\U{200A}')
    || c == '\U{2028}' || c == '\U{2029}' || c == '\U{202F}' || c == '\U{205F}'
    || c == '\U{3000}' || c == '\U{FEFF}'
  }

  /** Any character but the double quote that closes a string. */
  predicate IsNotQuote(c: char) {
    c != '"'
  }

  /** A character that can start a token or be skipped, outside a string. */
  predicate Recognized(c: char) {
    c == '(' || c == ')' || IsWhitespace(c) || IsDigit(c) || c == '"' || IsWordChar(c)
  }

  datatype TokenKind = Paren | Name | Number | String

  /** A token: its kind (the source's `type` field) and its text. */
  datatype Token = Token(kind: TokenKind, value: string)

  datatype LexError =
    | UnknownChar(ch: char, pos: nat)      // a character of no recognised class
    | UnterminatedString(pos: nat)         // an opening quote with no closing quote after it

  /** The tokens the lexer can produce: what each kind's text looks like. */
  predicate ValidToken(t: Token) {
    match t.kind
    case Paren => t.value == "(" || t.value == ")"
    case Number => |t.value| > 0 && forall k :: 0 <= k < |t.value| ==> IsDigit(t.value[k])
    case Name =>
      |t.value| > 0 && !IsDigit(t.value[0]) && forall k :: 0 <= k < |t.value| ==> IsWordChar(t.value[k])
    case String => forall k :: 0 <= k < |t.value| ==> IsNotQuote(t.value[k])
  }

  predicate AllValid(ts: seq<Token>) {
    forall k :: 0 <= k < |ts| ==> ValidToken(ts[k])
  }

  /** End of the maximal run of characters satisfying `p` that starts at `i`. */
  function ScanWhile(s: string, i: nat, p: char -> bool): (j: nat)
    requires i <= |s|
    ensures i <= j <= |s|
    ensures forall k :: i <= k < j ==> p(s[k])
    ensures j == |s| || !p(s[j])
    decreases |s| - i
  {
    if i < |s| && p(s[i]) then ScanWhile(s, i + 1, p) else i
  }

  /** A run of `p` characters from `i` that stops at `j` ends where ScanWhile says. */
  lemma ScanWhileUnique(s: string, i: nat, j: nat, p: char -> bool)
    requires i <= j <= |s|
    requires forall k :: i <= k < j ==> p(s[k])
    requires j == |s| || !p(s[j])
    ensures ScanWhile(s, i, p) == j
  {
  }

  /** The tokens `ts` in front of whatever `r` holds; a failure stays a failure. */
  function Prefixed(ts: seq<Token>, r: Result<seq<Token>, LexError>): Result<seq<Token>, LexError> {
    match r
    case Success(rest) => Success(ts + rest)
    case Failure(e) => Failure(e)
  }

  /** One round of the tokenizer's loop: the token it pushes, if any, and where the cursor goes. */
  datatype Step = Step(token: Option<Token>, next: nat)

  /**
   * The round at position `i`: parens first, then white space (no token),
   * digit runs, quoted strings and word runs; anything else fails.
   */
  function LexStep(s: string, i: nat): (r: Result<Step, LexError>)
    requires i < |s|
    ensures r.Success? ==> i < r.value.next <= |s|
    ensures r.Success? && r.value.token.Some? ==> ValidToken(r.value.token.value)
  {
    if s[i] == '(' || s[i] == ')' then
      Success(Step(Some(Token(Paren, [s[i]])), i + 1))
    else if IsWhitespace(s[i]) then
      Success(Step(None, i + 1))
    else if IsDigit(s[i]) then
      var j := ScanWhile(s, i, IsDigit);
      Success(Step(Some(Token(Number, s[i..j])), j))
    else if s[i] == '"' then
      var j := ScanWhile(s, i + 1, IsNotQuote);
      if j == |s| then Failure(UnterminatedString(i))
      else Success(Step(Some(Token(String, s[i + 1..j])), j + 1))
    else if IsWordChar(s[i]) then
      var j := ScanWhile(s, i, IsWordChar);
      Success(Step(Some(Token(Name, s[i..j])), j))
    else
      Failure(UnknownChar(s[i], i))
  }

  /** The tokens of `s` from position `i` on: round after round until the input ends or a round fails. */
  function LexFrom(s: string, i: nat): (r: Result<seq<Token>, LexError>)
    requires i <= |s|
    ensures r.Success? ==> AllValid(r.value)
    decreases |s| - i
  {
    if i == |s| then Success([])
    else
      match LexStep(s, i)
      case Failure(e) => Failure(e)
      case Success(Step(None, j)) => LexFrom(s, j)
      case Success(Step(Some(t), j)) => Prefixed([t], LexFrom(s, j))
  }

  /** The tokens of a whole input. */
  function Lex(input: string): (r: Result<seq<Token>, LexError>)
    ensures r.Success? ==> AllValid(r.value)
  {
    LexFrom(input, 0)
  }

  /** Lexing from `i` is one round, then lexing from where the round leaves the cursor. */
  lemma LexFromStep(s: string, i: nat)
    requires i < |s|
    ensures LexStep(s, i).Failure? ==> LexFrom(s, i) == Failure(LexStep(s, i).error)
    ensures LexStep(s, i).Success? && LexStep(s, i).value.token.None? ==>
              LexFrom(s, i) == LexFrom(s, LexStep(s, i).value.next)
    ensures LexStep(s, i).Success? && LexStep(s, i).value.token.Some? ==>
              LexFrom(s, i) == Prefixed([LexStep(s, i).value.token.value], LexFrom(s, LexStep(s, i).value.next))
  {
  }

  /** Appending one token to the accumulated ones commutes with prefixing the rest. */
  lemma PrefixedPush(ts: seq<Token>, t: Token, r: Result<seq<Token>, LexError>)
    ensures Prefixed(ts, Prefixed([t], r)) == Prefixed(ts + [t], r)
  {
    if r.Success? {
      assert ts + ([t] + r.value) == (ts + [t]) + r.value;
    }
  }

  /**
   * One of the tokenizer's inner loops: appends `input[i]` to `value` while
   * `p` holds of it, and returns the text read and the cursor after it.
   */
  method ReadRun(input: string, start: nat, p: char -> bool) returns (value: string, i: nat)
    requires start <= |input|
    ensures i == ScanWhile(input, start, p)
    ensures value == input[start..i]
  {
    value, i := "", start;
    while i < |input| && p(input[i])
      invariant start <= i <= |input|
      invariant value == input[start..i]
      invariant forall k :: start <= k < i ==> p(input[k])
    {
      value := value + [input[i]];
      i := i + 1;
    }
    ScanWhileUnique(input, start, i, p);
  }

  /** The body of the tokenizer's loop: one round from position `i`. */
  method ReadToken(input: string, i: nat) returns (r: Result<Step, LexError>)
    requires i < |input|
    ensures r == LexStep(input, i)
  {
    var letter := input[i];
    if letter == '(' || letter == ')' {
      return Success(Step(Some(Token(Paren, [letter])), i + 1));
    }
    if IsWhitespace(letter) {
      return Success(Step(None, i + 1));
    }
    if IsDigit(letter) {
      var value, next := ReadRun(input, i, IsDigit);
      return Success(Step(Some(Token(Number, value)), next));
    }
    if letter == '"' {
      var value, close := ReadRun(input, i + 1, IsNotQuote);
      if close == |input| {
        return Failure(UnterminatedString(i));
      }
      return Success(Step(Some(Token(String, value)), close + 1));
    }
    if IsWordChar(letter) {
      var value, next := ReadRun(input, i, IsWordChar);
      return Success(Step(Some(Token(Name, value)), next));
    }
    return Failure(UnknownChar(letter, i));
  }

  /** The source's `tokenizer`: one cursor, tokens pushed as they are recognised. */
  method Tokenize(input: string) returns (r: Result<seq<Token>, LexError>)
    ensures r == Lex(input)
  {
    var tokens: seq<Token> := [];
    var i := 0;
    assert Prefixed(tokens, LexFrom(input, i)) == Lex(input) by {
      if LexFrom(input, i).Success? {
        assert tokens + LexFrom(input, i).value == LexFrom(input, i).value;
      }
    }
    while i < |input|
      invariant 0 <= i <= |input|
      invariant Lex(input) == Prefixed(tokens, LexFrom(input, i))
      decreases |input| - i
    {
      var step := ReadToken(input, i);
      LexFromStep(input, i);
      if step.Failure? {
        return Failure(step.error);
      }
      var next := step.value.next;
      if step.value.token.Some? {
        PrefixedPush(tokens, step.value.token.value, LexFrom(input, next));
        tokens := tokens + [step.value.token.value];
      }
      i := next;
    }
    assert tokens + [] == tokens;
    return Success(tokens);
  }
}
