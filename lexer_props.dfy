/**
 * Properties of the lexer: printing valid tokens and lexing the text gives
 * them back, quote-free inputs lose only their white space, and exactly the
 * unknown characters are rejected. Also the two scanning loops as the
 * source writes them, which never stop.
 */
module LexerProps {
  import opened Wrappers
  import opened Lexer

  /** The text a token is read from: strings regain their quotes. */
  function Show(t: Token): string {
    if t.kind == String then "\"" + t.value + "\"" else t.value
  }

  /** Tokens printed one after another, each followed by a space. */
  function Unlex(ts: seq<Token>): string {
    if ts == [] then "" else Show(ts[0]) + " " + Unlex(ts[1..])
  }

  /** The token texts, concatenated. */
  function Values(ts: seq<Token>): string {
    if ts == [] then "" else ts[0].value + Values(ts[1..])
  }

  /** `s` with every white-space character removed. */
  function StripWhitespace(s: string): string {
    if s == [] then "" else (if IsWhitespace(s[0]) then "" else [s[0]]) + StripWhitespace(s[1..])
  }

  /** The text `w` appears in `s` from position `i` on. */
  predicate TextAt(s: string, i: nat, w: string) {
    i + |w| <= |s| && forall k :: 0 <= k < |w| ==> s[i + k] == w[k]
  }

  lemma TextAtSplit(s: string, i: nat, a: string, b: string)
    requires TextAt(s, i, a + b)
    ensures TextAt(s, i, a) && TextAt(s, i + |a|, b)
  {
    forall k | 0 <= k < |a| ensures s[i + k] == a[k] {
      assert (a + b)[k] == a[k];
    }
    forall k | 0 <= k < |b| ensures s[i + |a| + k] == b[k] {
      assert (a + b)[|a| + k] == b[k];
    }
  }

  /** A run of `p` characters followed by one that is not ends where ScanWhile says. */
  lemma FirstRun(s: string, i: nat, v: string, p: char -> bool)
    requires TextAt(s, i, v) && i + |v| < |s| && !p(s[i + |v|])
    requires forall k :: 0 <= k < |v| ==> p(v[k])
    ensures ScanWhile(s, i, p) == i + |v|
  {
    forall k | i <= k < i + |v| ensures p(s[k]) {
      assert s[i + (k - i)] == v[k - i];
    }
    ScanWhileUnique(s, i, i + |v|, p);
  }

  /** `s[i..i + |v|]` is `v` when `v` appears at `i`. */
  lemma SliceAt(s: string, i: nat, v: string)
    requires TextAt(s, i, v)
    ensures s[i..i + |v|] == v
  {
    forall k | 0 <= k < |v| ensures s[i..i + |v|][k] == v[k] {
      assert s[i + k] == v[k];
    }
  }

  /** A digit run followed by a non-digit is one round yielding that number. */
  lemma FirstNumber(s: string, i: nat, v: string)
    requires ValidToken(Token(Number, v))
    requires TextAt(s, i, v) && i + |v| < |s| && !IsDigit(s[i + |v|])
    ensures LexStep(s, i) == Success(Step(Some(Token(Number, v)), i + |v|))
  {
    assert s[i + 0] == v[0];
    FirstRun(s, i, v, IsDigit);
    SliceAt(s, i, v);
  }

  /** A word run starting with a non-digit, followed by a non-word character, is one round yielding that name. */
  lemma FirstName(s: string, i: nat, v: string)
    requires ValidToken(Token(Name, v))
    requires TextAt(s, i, v) && i + |v| < |s| && !IsWordChar(s[i + |v|])
    ensures LexStep(s, i) == Success(Step(Some(Token(Name, v)), i + |v|))
  {
    assert s[i + 0] == v[0];
    FirstRun(s, i, v, IsWordChar);
    SliceAt(s, i, v);
  }

  /** A quoted text is one round yielding the string between the quotes. */
  lemma FirstString(s: string, i: nat, v: string)
    requires ValidToken(Token(String, v))
    requires TextAt(s, i, "\"" + v + "\"")
    ensures LexStep(s, i) == Success(Step(Some(Token(String, v)), i + |v| + 2))
  {
    TextAtSplit(s, i, "\"" + v, "\"");
    TextAtSplit(s, i, "\"", v);
    assert s[i + 0] == "\""[0];
    assert s[i + 1 + |v| + 0] == "\""[0];
    FirstRun(s, i + 1, v, IsNotQuote);
    SliceAt(s, i + 1, v);
  }

  /** A token's text, followed by a space, is one round of the lexer that yields that token. */
  lemma FirstToken(s: string, i: nat, t: Token)
    requires ValidToken(t)
    requires TextAt(s, i, Show(t)) && i + |Show(t)| < |s| && s[i + |Show(t)|] == ' '
    ensures LexStep(s, i) == Success(Step(Some(t), i + |Show(t)|))
  {
    match t.kind
    case Paren =>
      assert s[i + 0] == t.value[0];
      assert [s[i]] == t.value;
    case Number => FirstNumber(s, i, t.value);
    case Name => FirstName(s, i, t.value);
    case String => FirstString(s, i, t.value);
  }

  /** A token's text and a space, in front of text that lexes to `rest`, lex to that token and `rest`. */
  lemma UnlexCons(s: string, i: nat, t: Token, rest: seq<Token>)
    requires ValidToken(t) && TextAt(s, i, Show(t) + " ")
    requires LexFrom(s, i + |Show(t)| + 1) == Success(rest)
    ensures LexFrom(s, i) == Success([t] + rest)
  {
    var n := |Show(t)|;
    TextAtSplit(s, i, Show(t), " ");
    assert s[i + n + 0] == " "[0];
    FirstToken(s, i, t);
    LexFromStep(s, i);
    assert LexStep(s, i + n) == Success(Step(None, i + n + 1));
    LexFromStep(s, i + n);
  }

  /** The printed text of a non-empty token list: the first token's text and a space, then the rest's. */
  lemma UnlexSplit(s: string, i: nat, ts: seq<Token>)
    requires AllValid(ts) && ts != []
    requires TextAt(s, i, Unlex(ts))
    ensures ValidToken(ts[0]) && AllValid(ts[1..])
    ensures TextAt(s, i, Show(ts[0]) + " ")
    ensures TextAt(s, i + |Show(ts[0])| + 1, Unlex(ts[1..]))
    ensures |Unlex(ts)| == |Show(ts[0])| + 1 + |Unlex(ts[1..])|
  {
    var rest := ts[1..];
    forall k | 0 <= k < |rest| ensures ValidToken(rest[k]) {
      assert rest[k] == ts[k + 1];
    }
    TextAtSplit(s, i, Show(ts[0]) + " ", Unlex(rest));
  }

  /** Lexing from where the printed text of `ts` starts, up to the end of `s`, reads back exactly `ts`. */
  lemma {:induction false} LexFromUnlex(s: string, i: nat, ts: seq<Token>)
    requires AllValid(ts)
    requires TextAt(s, i, Unlex(ts)) && i + |Unlex(ts)| == |s|
    ensures LexFrom(s, i) == Success(ts)
    decreases ts
  {
    if ts != [] {
      UnlexSplit(s, i, ts);
      LexFromUnlex(s, i + |Show(ts[0])| + 1, ts[1..]);
      UnlexCons(s, i, ts[0], ts[1..]);
      assert [ts[0]] + ts[1..] == ts;
    }
  }

  /** Round trip: the printed text of valid tokens lexes to those tokens. */
  lemma LexUnlex(ts: seq<Token>)
    requires AllValid(ts)
    ensures Lex(Unlex(ts)) == Success(ts)
  {
    LexFromUnlex(Unlex(ts), 0, ts);
  }

  /** Removing white space from a run that has none keeps the run whole. */
  lemma {:induction false} StripRun(s: string, i: nat, j: nat)
    requires i <= j <= |s|
    requires forall k :: i <= k < j ==> !IsWhitespace(s[k])
    ensures StripWhitespace(s[i..]) == s[i..j] + StripWhitespace(s[j..])
    decreases j - i
  {
    if i < j {
      StripRun(s, i + 1, j);
      assert s[i..][1..] == s[i + 1..];
      assert s[i..j] == [s[i]] + s[i + 1..j];
    }
  }

  /** The text a round contributes to the token values: its token's text, or nothing. */
  function Emitted(st: Step): string {
    if st.token.Some? then st.token.value.value else ""
  }

  /** A successful lexing from `i` spells, in its values, what the round at `i` emits and then the values from after it. */
  lemma ValuesStep(s: string, i: nat)
    requires i < |s| && LexStep(s, i).Success? && LexFrom(s, i).Success?
    ensures LexFrom(s, LexStep(s, i).value.next).Success?
    ensures Values(LexFrom(s, i).value) == Emitted(LexStep(s, i).value) + Values(LexFrom(s, LexStep(s, i).value.next).value)
  {
    LexFromStep(s, i);
    var st := LexStep(s, i).value;
    if st.token.Some? {
      var rest := LexFrom(s, st.next).value;
      assert ([st.token.value] + rest)[1..] == rest;
    } else {
      assert Emitted(st) + Values(LexFrom(s, st.next).value) == Values(LexFrom(s, st.next).value);
    }
  }

  /** Outside strings, what a successful round emits is exactly the non-white-space text it passes over. */
  lemma StripStep(s: string, i: nat)
    requires i < |s| && s[i] != '"' && LexStep(s, i).Success?
    ensures StripWhitespace(s[i..]) == Emitted(LexStep(s, i).value) + StripWhitespace(s[LexStep(s, i).value.next..])
  {
    var st := LexStep(s, i).value;
    assert s[i..][1..] == s[i + 1..];
    if IsWordChar(s[i]) {
      StripRun(s, i, st.next);
    }
  }

  /**
   * For a quote-free input the lexer drops only white space: the token
   * texts, concatenated, are the input without its white space.
   */
  lemma {:induction false} LexFromKeepsText(s: string, i: nat)
    requires i <= |s|
    requires forall k :: i <= k < |s| ==> s[k] != '"'
    requires LexFrom(s, i).Success?
    ensures Values(LexFrom(s, i).value) == StripWhitespace(s[i..])
    decreases |s| - i
  {
    if i < |s| {
      LexFromStep(s, i);
      ValuesStep(s, i);
      StripStep(s, i);
      LexFromKeepsText(s, LexStep(s, i).value.next);
    }
  }

  /** The whole-input form of LexFromKeepsText. */
  lemma LexKeepsText(input: string)
    requires forall k :: 0 <= k < |input| ==> input[k] != '"'
    requires Lex(input).Success?
    ensures Values(Lex(input).value) == StripWhitespace(input)
  {
    LexFromKeepsText(input, 0);
    assert input[0..] == input;
  }

  /** Outside strings, a round fails exactly at an unrecognised character, and then lexing fails there. */
  lemma StepRejects(s: string, i: nat)
    requires i < |s| && s[i] != '"'
    ensures LexStep(s, i).Failure? <==> !Recognized(s[i])
    ensures LexStep(s, i).Failure? ==> LexFrom(s, i) == Failure(UnknownChar(s[i], i))
  {
    LexFromStep(s, i);
  }

  /** A round that succeeds outside strings reads only recognised characters, and lexing fails after it just as it fails from `i`. */
  lemma StepPasses(s: string, i: nat)
    requires i < |s| && s[i] != '"' && LexStep(s, i).Success?
    ensures forall k :: i <= k < LexStep(s, i).value.next ==> Recognized(s[k])
    ensures LexFrom(s, i).Failure? <==> LexFrom(s, LexStep(s, i).value.next).Failure?
    ensures LexFrom(s, i).Failure? ==> LexFrom(s, i).error == LexFrom(s, LexStep(s, i).value.next).error
  {
    LexFromStep(s, i);
  }

  /**
   * On a quote-free input the lexer fails exactly when some character is of
   * no recognised class, and it reports the first such character and its
   * position.
   */
  lemma {:induction false} LexFromRejects(s: string, i: nat)
    requires i <= |s|
    requires forall k :: i <= k < |s| ==> s[k] != '"'
    ensures LexFrom(s, i).Failure? <==> exists k :: i <= k < |s| && !Recognized(s[k])
    ensures LexFrom(s, i).Failure? ==>
              LexFrom(s, i).error.UnknownChar? &&
              i <= LexFrom(s, i).error.pos < |s| &&
              LexFrom(s, i).error.ch == s[LexFrom(s, i).error.pos] &&
              !Recognized(LexFrom(s, i).error.ch) &&
              forall k :: i <= k < LexFrom(s, i).error.pos ==> Recognized(s[k])
    decreases |s| - i
  {
    if i < |s| {
      StepRejects(s, i);
      if LexStep(s, i).Success? {
        var j := LexStep(s, i).value.next;
        StepPasses(s, i);
        LexFromRejects(s, j);
      }
    }
  }

  /** The whole-input form of LexFromRejects. */
  lemma LexRejects(input: string)
    requires forall k :: 0 <= k < |input| ==> input[k] != '"'
    ensures Lex(input).Failure? <==> exists k :: 0 <= k < |input| && !Recognized(input[k])
    ensures Lex(input).Failure? ==>
              Lex(input).error.UnknownChar? && Lex(input).error.pos < |input| &&
              Lex(input).error.ch == input[Lex(input).error.pos] &&
              !Recognized(Lex(input).error.ch) &&
              forall k :: 0 <= k < Lex(input).error.pos ==> Recognized(input[k])
  {
    LexFromRejects(input, 0);
  }

  /** Each paren is one token of its own character, one position on; white space moves on and emits nothing. */
  lemma ParenAndSpaceStep(s: string, i: nat)
    requires i < |s|
    ensures s[i] == '(' || s[i] == ')' ==> LexFrom(s, i) == Prefixed([Token(Paren, [s[i]])], LexFrom(s, i + 1))
    ensures IsWhitespace(s[i]) ==> LexFrom(s, i) == LexFrom(s, i + 1)
  {
  }

  /** A maximal digit run becomes one number token holding exactly that run. */
  lemma DigitRunToken(s: string, i: nat, j: nat)
    requires i < j <= |s|
    requires forall k :: i <= k < j ==> IsDigit(s[k])
    requires j == |s| || !IsDigit(s[j])
    ensures LexFrom(s, i) == Prefixed([Token(Number, s[i..j])], LexFrom(s, j))
  {
    ScanWhileUnique(s, i, j, IsDigit);
  }

  /**
   * A maximal word run that starts with a non-digit becomes one name token;
   * a name that runs to the end of the input is the last token.
   */
  lemma NameRunToken(s: string, i: nat, j: nat)
    requires i < j <= |s|
    requires !IsDigit(s[i])
    requires forall k :: i <= k < j ==> IsWordChar(s[k])
    requires j == |s| || !IsWordChar(s[j])
    ensures LexFrom(s, i) == Prefixed([Token(Name, s[i..j])], LexFrom(s, j))
    ensures j == |s| ==> LexFrom(s, i) == Success([Token(Name, s[i..])])
  {
    ScanWhileUnique(s, i, j, IsWordChar);
    if j == |s| {
      assert LexFrom(s, j) == Success([]);
      assert s[i..j] == s[i..];
      assert [Token(Name, s[i..j])] + [] == [Token(Name, s[i..])];
    }
  }

  /**
   * A string token holds the characters between the quotes and the cursor
   * moves past the closing quote; with no closing quote the lexer fails.
   */
  lemma StringToken(s: string, i: nat, j: nat)
    requires i < j <= |s| && s[i] == '"'
    requires forall k :: i < k < j ==> s[k] != '"'
    requires j == |s| || s[j] == '"'
    ensures j < |s| ==> LexFrom(s, i) == Prefixed([Token(String, s[i + 1..j])], LexFrom(s, j + 1))
    ensures j == |s| ==> LexFrom(s, i) == Failure(UnterminatedString(i))
  {
    ScanWhileUnique(s, i + 1, j, IsNotQuote);
  }

  // ----- The scanning loops as the source writes them -----

  /** `input[i]` in JavaScript: a character, or `undefined` past the end. */
  function CharAt(s: string, i: nat): Option<char> {
    if i < |s| then Some(s[i]) else None
  }

  /**
   * `/\w/.test(input[i])` as the source evaluates it: `undefined` is read as
   * the text "undefined", whose letters match.
   */
  predicate WordTestAsWritten(s: string, i: nat) {
    match CharAt(s, i)
    case None => true
    case Some(c) => IsWordChar(c)
  }

  /**
   * The name loop as written, run for at most `fuel` rounds: the cursor it
   * stops at, or None if it is still running when the fuel is spent.
   */
  function NameLoopAsWritten(s: string, i: nat, fuel: nat): Option<nat>
    decreases fuel
  {
    if !WordTestAsWritten(s, i) then Some(i)
    else if fuel == 0 then None
    else NameLoopAsWritten(s, i + 1, fuel - 1)
  }

  /** As written, a name that reaches the end of the input is never finished. */
  lemma {:induction false} NameLoopAtEndNeverStops(s: string, i: nat, fuel: nat)
    requires forall k :: i <= k < |s| ==> IsWordChar(s[k])
    ensures NameLoopAsWritten(s, i, fuel) == None
    decreases fuel
  {
    if fuel > 0 {
      NameLoopAtEndNeverStops(s, i + 1, fuel - 1);
    }
  }

  /** The text `value += letter` appends: the character, or "undefined". */
  function JsText(c: Option<char>): string {
    match c
    case None => "undefined"
    case Some(ch) => [ch]
  }

  /**
   * The string loop as written, run for at most `fuel` rounds: `letter` is
   * read once, after the opening quote, and never again.
   */
  function StringLoopAsWritten(letter: Option<char>, value: string, fuel: nat): Option<string>
    decreases fuel
  {
    if letter == Some('"') then Some(value)
    else if fuel == 0 then None
    else StringLoopAsWritten(letter, value + JsText(letter), fuel - 1)
  }

  /**
   * The string branch as written, from the opening quote at `i`: the token
   * and the cursor it leaves, which is never moved past the closing quote.
   */
  function StringBranchAsWritten(s: string, i: nat, fuel: nat): Option<(Token, nat)> {
    match StringLoopAsWritten(CharAt(s, i + 1), "", fuel)
    case None => None
    case Some(v) => Some((Token(String, v), i + 1))
  }

  /**
   * As written, a string with any character between its quotes never ends,
   * and an empty one leaves the cursor on its closing quote, which the next
   * round reads as an opening quote.
   */
  lemma {:induction false} StringLoopNeverStops(letter: Option<char>, value: string, fuel: nat)
    requires letter != Some('"')
    ensures StringLoopAsWritten(letter, value, fuel) == None
    decreases fuel
  {
    if fuel > 0 {
      StringLoopNeverStops(letter, value + JsText(letter), fuel - 1);
    }
  }

  /** The string branch as written, on both kinds of input. */
  lemma StringBranchAsWrittenResult(s: string, i: nat, fuel: nat)
    requires i < |s| && s[i] == '"'
    ensures CharAt(s, i + 1) != Some('"') ==> StringBranchAsWritten(s, i, fuel) == None
    ensures CharAt(s, i + 1) == Some('"') ==>
              StringBranchAsWritten(s, i, fuel) == Some((Token(String, ""), i + 1)) && s[i + 1] == '"'
  {
    if CharAt(s, i + 1) != Some('"') {
      StringLoopNeverStops(CharAt(s, i + 1), "", fuel);
    }
  }
}
