/**
 * The tokenizer of src/lexer.ts: a four-state machine that turns a document
 * into a flat token stream with line/column locations.
 *
 * The machine is stated once as a transition function, `Step`, folded over
 * the characters by `Run`; `Tokenization` is the whole tokenizer as a
 * function, and the method `Tokenize` is the source's imperative loop,
 * proved to compute it.
 *
 * The character constants come from a module of the source that is not part
 * of this model; the usual codes are assumed: NEWLINE 10, TAB 9, SPACE 32,
 * QUOTE `"`, ESCAPE `\`, EQ `=`, OPEN_TAG `{`, CLOSE_TAG `}`.
 */
module Lexer {
  import opened Types
  import opened Text

  const NEWLINE: char := '\n'
  const TAB: char := '\t'
  const SPACE: char := ' '
  const QUOTE: char := '"'
  const ESCAPE: char := '\\'
  const EQ: char := '='
  const OPEN_TAG: char := '{'
  const CLOSE_TAG: char := '}'
  const CARRIAGE_RETURN: char := '\r'

  /** The four tokenizer states. */
  datatype Context = TokenStart | ValueContent | ValueStringContent | ValueStringEscapeContent

  /**
   * Everything the scanning loop updates: the state, the line and column of
   * the next character, the value token being accumulated and the tokens
   * emitted so far.
   */
  datatype Lexer = Lexer(context: Context, line: int, column: int, value: ValueToken, tokens: seq<Token>)

  /** A token and whether it is complete (`TokenResult`). */
  datatype TokenResult = TokenResult(token: Token, complete: bool)

  /**
   * `tokenizeStart`: classifies the character that starts a token at the
   * given location. A result is complete exactly when it is not a `Value`.
   */
  function TokenizeStart(c: char, column: int, line: int): (r: TokenResult)
    ensures r.complete <==> !r.token.Value?
  {
    var location := Location(line, column);
    if c == EQ then TokenResult(PropertyJoin([EQ], location), true)
    else if c == CLOSE_TAG then TokenResult(CloseTag(location), true)
    else if c == OPEN_TAG then TokenResult(OpenTag(location), true)
    else if c == QUOTE then TokenResult(Value("", location, None), false)
    else TokenResult(Value([c], location, None), false)
  }

  /** The value token `v` closed by a terminator read at column `at` of `line`. */
  function Finish(v: ValueToken, line: int, at: int): Token {
    Value(v.content, v.start, Some(Location(line, at - 1)))
  }

  /** The value token `v` with `c` appended to its content. */
  function Append(v: ValueToken, c: char): ValueToken {
    Value(v.content + [c], v.start, v.end)
  }

  /**
   * One iteration of the scanning loop: the transition of the state machine
   * on character `c`, read at column `s.column` of line `s.line`.
   */
  function Step(s: Lexer, c: char): Result<Lexer>
  {
    match s.context
    case TokenStart => StepTokenStart(s, c)
    case ValueContent => StepValueContent(s, c)
    case ValueStringContent => StepValueStringContent(s, c)
    case ValueStringEscapeContent => StepValueStringEscapeContent(s, c)
  }

  /** `token-start`: skip blanks, reject `\`, emit delimiters, begin values. */
  function StepTokenStart(s: Lexer, c: char): Result<Lexer>
  {
    var at := s.column;
    var s := s.(column := at + 1);
    if c == NEWLINE then Ok(s.(column := 0, line := s.line + 1))
    else if c == TAB || c == SPACE then Ok(s)
    else if c == ESCAPE then Err(UnexpectedEscape(Location(s.line, at)))
    else
      var result := TokenizeStart(c, at, s.line);
      if result.complete then Ok(s.(tokens := s.tokens + [result.token]))
      else
        Ok(s.(value := result.token,
              context := if |result.token.content| == 0 then ValueStringContent else ValueContent))
  }

  /** `value-content`: a bare value, closed by a blank or a delimiter. */
  function StepValueContent(s: Lexer, c: char): Result<Lexer>
  {
    var at := s.column;
    var s := s.(column := at + 1);
    if c == NEWLINE then
      Ok(s.(tokens := s.tokens + [Finish(s.value, s.line, at)], context := TokenStart,
            column := 0, line := s.line + 1))
    else if c == SPACE || c == TAB then
      Ok(s.(tokens := s.tokens + [Finish(s.value, s.line, at)], context := TokenStart))
    else if c == EQ || c == OPEN_TAG || c == CLOSE_TAG then
      Ok(s.(tokens := s.tokens + [Finish(s.value, s.line, at), TokenizeStart(c, at, s.line).token],
            context := TokenStart))
    else if c == ESCAPE then Err(UnexpectedEscape(Location(s.line, at)))
    else if c == QUOTE then Err(UnexpectedQuote(Location(s.line, at)))
    else Ok(s.(value := Append(s.value, c)))
  }

  /** `value-string-content`: a quoted value, closed by `"`. */
  function StepValueStringContent(s: Lexer, c: char): Result<Lexer>
  {
    var at := s.column;
    var s := s.(column := at + 1);
    if c == QUOTE then Ok(s.(tokens := s.tokens + [Finish(s.value, s.line, at)], context := TokenStart))
    else if c == ESCAPE then Ok(s.(context := ValueStringEscapeContent))
    else Ok(s.(value := Append(s.value, c)))
  }

  /** `value-string-escape-content`: the character after `\` is kept verbatim. */
  function StepValueStringEscapeContent(s: Lexer, c: char): Result<Lexer>
  {
    var s := s.(column := s.column + 1);
    Ok(s.(value := Append(s.value, c), context := ValueStringContent))
  }

  /** The scanning loop over `cs`, stopping at the first error. */
  function Run(s: Lexer, cs: string): Result<Lexer>
    decreases |cs|
  {
    if |cs| == 0 then Ok(s)
    else
      match Step(s, cs[0])
      case Err(e) => Err(e)
      case Ok(s') => Run(s', cs[1..])
  }

  /**
   * Line-ending normalisation as written: `replace` with a string pattern
   * rewrites only the first `\r\n`, then only the first remaining `\r`.
   */
  function Normalize(input: string): string {
    ReplaceFirst(ReplaceFirst(input, [CARRIAGE_RETURN, NEWLINE], [NEWLINE]), [CARRIAGE_RETURN], [NEWLINE])
  }

  /**
   * The location given to the first `{`, at index `fileStart` of `text`: the
   * preamble's newline count minus one, and the offset from the character
   * after the preamble's last newline, where a missing newline counts as one
   * at index 0.
   */
  function StartLocation(text: string, fileStart: nat): Location
    requires fileStart <= |text|
  {
    var preamble := text[..fileStart];
    var preambleLines := CountChar(preamble, NEWLINE);
    var finalIndex := LastIndexOf(preamble, NEWLINE);
    var lineStart := (if finalIndex == -1 then 0 else finalIndex) + 1;
    Location(preambleLines - 1, fileStart - lineStart)
  }

  /** The state the scanning loop starts in, just after the first `{`. */
  function Initial(text: string, fileStart: nat): Lexer
    requires fileStart <= |text|
  {
    var start := StartLocation(text, fileStart);
    Lexer(TokenStart, start.line, start.column + 1, Value("", Location(0, 0), None), [OpenTag(start)])
  }

  /** What the tokenizer returns once scanning has finished or failed. */
  function Emitted(scan: Result<Lexer>): Result<seq<Token>> {
    match scan
    case Err(e) => Err(e)
    case Ok(s) => Ok(s.tokens)
  }

  /**
   * `tokenize`: the whole tokenizer. Fails when there is no `{`; otherwise
   * emits the `OpenTag` of the first `{` and scans the rest. A value still
   * open when the input ends is not emitted.
   */
  function Tokenization(input: string): Result<seq<Token>>
  {
    var text := Normalize(input);
    var fileStart := IndexOf(text, [OPEN_TAG]);
    if fileStart == -1 then Err(NoDocumentStart)
    else Emitted(Run(Initial(text, fileStart), text[fileStart + 1..]))
  }

  /**
   * `tokenize` as the source writes it: normalise line endings, locate the
   * first `{` and the preamble before it, then run the scanning loop.
   */
  method Tokenize(input: string) returns (r: Result<seq<Token>>)
    ensures r == Tokenization(input)
  {
    var text := Normalize(input);
    var fileStart := IndexOf(text, [OPEN_TAG]);
    if fileStart == -1 {
      return Err(NoDocumentStart);
    }
    var preamble := text[..fileStart];
    var preambleLines := CountChar(preamble, NEWLINE);
    var finalIndex := LastIndexOf(preamble, NEWLINE);
    finalIndex := if finalIndex == -1 then 0 else finalIndex;
    var lineStart := finalIndex + 1;
    var column: int := fileStart - lineStart;
    var line: int := preambleLines as int - 1;
    var tokens := [OpenTag(Location(line, column))];
    column := column + 1;
    var value: ValueToken := Value("", Location(0, 0), None);
    assert Lexer(TokenStart, line, column, value, tokens) == Initial(text, fileStart) by {
      assert StartLocation(text, fileStart) == Location(line, column - 1);
    }
    r := Scan(text, fileStart + 1, Lexer(TokenStart, line, column, value, tokens));
  }

  /**
   * The scanning loop of `tokenize`: one character per iteration from index
   * `from` of `text`, starting in state `start`.
   */
  method Scan(text: string, from: nat, start: Lexer) returns (r: Result<seq<Token>>)
    requires from <= |text|
    ensures r == Emitted(Run(start, text[from..]))
  {
    var context, line, column, value, tokens := start.context, start.line, start.column, start.value, start.tokens;
    var i := from;
    while i < |text|
      invariant from <= i <= |text|
      invariant Run(Lexer(context, line, column, value, tokens), text[i..]) == Run(start, text[from..])
    {
      ghost var before := Lexer(context, line, column, value, tokens);
      var c := text[i];
      var at := column;
      assert text[i..][0] == c && text[i..][1..] == text[i + 1..];
      i := i + 1;
      column := column + 1;
      match context {
        case TokenStart =>
          assert Step(before, c) == StepTokenStart(before, c);
          if c == NEWLINE {
            column := 0;
            line := line + 1;
            assert Step(before, c) == Ok(Lexer(context, line, column, value, tokens));
          } else if c == TAB || c == SPACE {
            assert Step(before, c) == Ok(Lexer(context, line, column, value, tokens));
          } else if c == ESCAPE {
            return Err(UnexpectedEscape(Location(line, at)));
          } else {
            var result := TokenizeStart(c, at, line);
            if result.complete {
              tokens := tokens + [result.token];
            } else {
              value := result.token;
              context := if |value.content| == 0 then ValueStringContent else ValueContent;
            }
            assert Step(before, c) == Ok(Lexer(context, line, column, value, tokens));
          }
        case ValueContent =>
          assert Step(before, c) == StepValueContent(before, c);
          if c == NEWLINE {
            tokens := tokens + [Finish(value, line, at)];
            context := TokenStart;
            column := 0;
            line := line + 1;
            assert Step(before, c) == Ok(Lexer(context, line, column, value, tokens));
          } else if c == SPACE || c == TAB {
            tokens := tokens + [Finish(value, line, at)];
            context := TokenStart;
            assert Step(before, c) == Ok(Lexer(context, line, column, value, tokens));
          } else if c == EQ || c == OPEN_TAG || c == CLOSE_TAG {
            tokens := tokens + [Finish(value, line, at)];
            tokens := tokens + [TokenizeStart(c, at, line).token];
            context := TokenStart;
            assert tokens == before.tokens + [Finish(value, line, at), TokenizeStart(c, at, line).token];
            assert Step(before, c) == Ok(Lexer(context, line, column, value, tokens));
          } else if c == ESCAPE {
            return Err(UnexpectedEscape(Location(line, at)));
          } else if c == QUOTE {
            return Err(UnexpectedQuote(Location(line, at)));
          } else {
            value := Value(value.content + [c], value.start, value.end);
            assert Step(before, c) == Ok(Lexer(context, line, column, value, tokens));
          }
        case ValueStringContent =>
          assert Step(before, c) == StepValueStringContent(before, c);
          if c == QUOTE {
            tokens := tokens + [Finish(value, line, at)];
            context := TokenStart;
          } else if c == ESCAPE {
            context := ValueStringEscapeContent;
          } else {
            value := Value(value.content + [c], value.start, value.end);
          }
          assert Step(before, c) == Ok(Lexer(context, line, column, value, tokens));
        case ValueStringEscapeContent =>
          assert Step(before, c) == StepValueStringEscapeContent(before, c);
          value := Value(value.content + [c], value.start, value.end);
          context := ValueStringContent;
          assert Step(before, c) == Ok(Lexer(context, line, column, value, tokens));
      }
    }
    assert text[i..] == [];
    return Ok(tokens);
  }
}
