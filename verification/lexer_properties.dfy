/**
 * What the tokenizer of src/lexer.ts guarantees, proved about the model in
 * module Lexer: the document-start rule, the location of the first `{`,
 * the line-ending normalisation, the shape of every emitted `Value`, and the
 * behaviour of bare and quoted values.
 */
module LexerProperties {
  import opened Types
  import opened Text
  import opened Lexer

  // ---------------------------------------------------------------------
  // Reference definitions
  // ---------------------------------------------------------------------

  /** A character a bare value may contain. */
  predicate BareChar(c: char) {
    c != NEWLINE && c != SPACE && c != TAB && c != EQ && c != OPEN_TAG && c != CLOSE_TAG
    && c != ESCAPE && c != QUOTE
  }

  /** The content of a bare value: one or more bare characters. */
  predicate BareWord(w: string) {
    |w| > 0 && forall i :: 0 <= i < |w| ==> BareChar(w[i])
  }

  /** Text with no carriage return: `replace` leaves it as it is. */
  predicate NoCarriageReturn(w: string) {
    forall i :: 0 <= i < |w| ==> w[i] != CARRIAGE_RETURN
  }

  /**
   * The rest of a quoted value that never closes: every `"` in `w` is taken
   * verbatim after a `\`. `escaped` says whether a `\` was just read.
   */
  predicate Unclosed(w: string, escaped: bool)
    decreases |w|
  {
    if |w| == 0 then true
    else if escaped then Unclosed(w[1..], false)
    else w[0] != QUOTE && Unclosed(w[1..], w[0] == ESCAPE)
  }

  /**
   * A finished token. A `Value` has an end on the line it starts on; a bare
   * value ends on the column of its last character, and a quoted value,
   * whose quotes and escapes take columns of their own, ends further right.
   */
  predicate Closed(t: Token) {
    t.Value? ==>
      && t.end.Some?
      && t.end.value.line == t.start.line
      && ((BareWord(t.content) && t.end.value.column == t.start.column + |t.content| - 1)
          || t.end.value.column >= t.start.column + |t.content|)
  }

  /** The number of characters after the last newline of `s` (all of them if none). */
  function CharsSinceNewline(s: string): nat {
    if |s| == 0 then 0
    else if s[|s| - 1] == NEWLINE then 0
    else CharsSinceNewline(s[..|s| - 1]) + 1
  }

  /**
   * The invariant of the scanning loop: every emitted token is closed, and the
   * value being accumulated sits on the current line, with the current column
   * just past its characters (and its opening quote and escapes).
   */
  predicate Scanning(s: Lexer) {
    && (forall t :: t in s.tokens ==> Closed(t))
    && (s.context != TokenStart ==> s.value.start.line == s.line)
    && (s.context == ValueContent ==>
          BareWord(s.value.content) && s.column == s.value.start.column + |s.value.content|)
    && (s.context == ValueStringContent ==> s.column >= s.value.start.column + 1 + |s.value.content|)
    && (s.context == ValueStringEscapeContent ==> s.column >= s.value.start.column + 2 + |s.value.content|)
  }

  // ---------------------------------------------------------------------
  // The scanning loop
  // ---------------------------------------------------------------------

  /** Scanning `a + b` is scanning `a`, then `b` from where `a` left off. */
  lemma {:induction false} RunAppend(s: Lexer, a: string, b: string)
    ensures Run(s, a + b) == match Run(s, a) case Err(e) => Err(e) case Ok(t) => Run(t, b)
    decreases |a|
  {
    if |a| > 0 {
      assert (a + b)[0] == a[0] && (a + b)[1..] == a[1..] + b;
      match Step(s, a[0]) {
        case Err(e) =>
        case Ok(s') => RunAppend(s', a[1..], b);
      }
    } else {
      assert a + b == b;
    }
  }

  /** Scanning one character is one transition. */
  lemma RunOne(s: Lexer, c: char)
    ensures Run(s, [c]) == Step(s, c)
  {
    assert [c][1..] == [];
  }

  /** Scanning two characters is two transitions. */
  lemma RunTwo(s: Lexer, c: char, d: char)
    ensures Run(s, [c, d]) == match Step(s, c) case Err(e) => Err(e) case Ok(s') => Step(s', d)
  {
    assert [c, d][1..] == [d];
    match Step(s, c) {
      case Err(e) =>
      case Ok(s') => RunOne(s', d);
    }
  }

  /** The loop only ever appends to the emitted tokens. */
  lemma {:induction false} RunExtends(s: Lexer, cs: string)
    ensures Run(s, cs).Ok? ==> s.tokens <= Run(s, cs).value.tokens
    decreases |cs|
  {
    if |cs| > 0 {
      match Step(s, cs[0]) {
        case Err(e) =>
        case Ok(s') => RunExtends(s', cs[1..]);
      }
    }
  }

  /** The loop fails only on a misplaced `\` or `"`. */
  lemma {:induction false} RunErrors(s: Lexer, cs: string)
    ensures Run(s, cs).Err? ==> Run(s, cs).error.UnexpectedEscape? || Run(s, cs).error.UnexpectedQuote?
    decreases |cs|
  {
    if |cs| > 0 {
      match Step(s, cs[0]) {
        case Err(e) =>
        case Ok(s') => RunErrors(s', cs[1..]);
      }
    }
  }

  /** One transition keeps the scanning invariant. */
  lemma StepScanning(s: Lexer, c: char)
    requires Scanning(s)
    ensures Step(s, c).Ok? ==> Scanning(Step(s, c).value)
  {
    match Step(s, c) {
      case Err(e) =>
      case Ok(s') =>
        forall t | t in s'.tokens ensures Closed(t) {
          if t !in s.tokens {
            assert s.context == TokenStart || s.context == ValueContent || s.context == ValueStringContent;
          }
        }
    }
  }

  /** The whole loop keeps the scanning invariant. */
  lemma {:induction false} RunScanning(s: Lexer, cs: string)
    requires Scanning(s)
    ensures Run(s, cs).Ok? ==> Scanning(Run(s, cs).value)
    decreases |cs|
  {
    if |cs| > 0 {
      StepScanning(s, cs[0]);
      match Step(s, cs[0]) {
        case Err(e) =>
        case Ok(s') => RunScanning(s', cs[1..]);
      }
    }
  }

  /**
   * Inside a quoted value every character but `"` and `\` is appended as it
   * is, newlines included, and the line does not advance; the closing `"`
   * emits the value, ending one column before the quote.
   */
  lemma {:induction false} QuotedValue(s: Lexer, w: string)
    requires s.context == ValueStringContent
    requires forall i :: 0 <= i < |w| ==> w[i] != QUOTE && w[i] != ESCAPE
    ensures Run(s, w + [QUOTE]) == Ok(Lexer(
              TokenStart, s.line, s.column + |w| + 1,
              Value(s.value.content + w, s.value.start, s.value.end),
              s.tokens + [Value(s.value.content + w, s.value.start, Some(Location(s.line, s.column + |w| - 1)))]))
    decreases |w|
  {
    if |w| == 0 {
      assert w + [QUOTE] == [QUOTE];
      assert s.value.content + w == s.value.content;
    } else {
      var s' := s.(column := s.column + 1, value := Append(s.value, w[0]));
      assert Step(s, w[0]) == Ok(s');
      assert (w + [QUOTE])[0] == w[0] && (w + [QUOTE])[1..] == w[1..] + [QUOTE];
      QuotedValue(s', w[1..]);
      assert s'.value.content + w[1..] == s.value.content + w;
    }
  }

  /**
   * Inside a quoted value, characters other than `"` and `\` are appended
   * and nothing is emitted.
   */
  lemma {:induction false} QuotedText(s: Lexer, w: string)
    requires s.context == ValueStringContent
    requires forall i :: 0 <= i < |w| ==> w[i] != QUOTE && w[i] != ESCAPE
    ensures Run(s, w) == Ok(s.(column := s.column + |w|, value := Value(s.value.content + w, s.value.start, s.value.end)))
    decreases |w|
  {
    if |w| == 0 {
      assert s.value.content + w == s.value.content;
    } else {
      var s' := s.(column := s.column + 1, value := Append(s.value, w[0]));
      assert Step(s, w[0]) == Ok(s');
      QuotedText(s', w[1..]);
      assert s'.value.content + w[1..] == s.value.content + w;
    }
  }

  /**
   * In a quoted value a `\` takes the next character verbatim, whatever it is
   * (a `"`, a `\`, a newline), and returns to the quoted state.
   */
  lemma QuotedEscape(s: Lexer, c: char)
    requires s.context == ValueStringContent
    ensures Run(s, [ESCAPE, c]) == Ok(s.(column := s.column + 2, value := Append(s.value, c)))
  {
    var escaped := s.(column := s.column + 1, context := ValueStringEscapeContent);
    StepEscapeInQuotes(s);
    StepEscaped(escaped, c);
    RunTwo(s, ESCAPE, c);
  }

  /**
   * After a `\` in a quoted value: the escaped character `e`, then plain
   * characters `w`, then `"`, emit the value with `e` and `w` appended,
   * ending one column before the quote.
   */
  lemma EscapedThenClosed(s: Lexer, e: char, w: string)
    requires s.context == ValueStringEscapeContent
    requires forall i :: 0 <= i < |w| ==> w[i] != QUOTE && w[i] != ESCAPE
    ensures Run(s, [e] + w + [QUOTE]) == Ok(Lexer(
              TokenStart, s.line, s.column + |w| + 2,
              Value(s.value.content + [e] + w, s.value.start, s.value.end),
              s.tokens + [Value(s.value.content + [e] + w, s.value.start, Some(Location(s.line, s.column + |w|)))]))
  {
    assert [e] + w + [QUOTE] == [e] + (w + [QUOTE]);
    EscapedThen(s, e, w + [QUOTE]);
    ClosedAfterEscape(s, e, w);
  }

  /** Scanning the escaped character `e` then `tail`. */
  lemma EscapedThen(s: Lexer, e: char, tail: string)
    requires s.context == ValueStringEscapeContent
    ensures Run(s, [e] + tail) == Run(s.(column := s.column + 1, value := Append(s.value, e), context := ValueStringContent), tail)
  {
    StepEscaped(s, e);
    RunCons(s, e, tail, s.(column := s.column + 1, value := Append(s.value, e), context := ValueStringContent));
  }

  /** The quoted value right after its escaped character `e`: plain `w`, then `"`. */
  lemma ClosedAfterEscape(s: Lexer, e: char, w: string)
    requires s.context == ValueStringEscapeContent
    requires forall i :: 0 <= i < |w| ==> w[i] != QUOTE && w[i] != ESCAPE
    ensures Run(s.(column := s.column + 1, value := Append(s.value, e), context := ValueStringContent), w + [QUOTE])
         == Ok(Lexer(TokenStart, s.line, s.column + |w| + 2, Value(s.value.content + [e] + w, s.value.start, s.value.end),
                     s.tokens + [Value(s.value.content + [e] + w, s.value.start, Some(Location(s.line, s.column + |w|)))]))
  {
    var next := s.(column := s.column + 1, value := Append(s.value, e), context := ValueStringContent);
    var content := s.value.content + [e] + w;
    var last := Lexer(TokenStart, s.line, s.column + |w| + 2, Value(content, s.value.start, s.value.end),
                      s.tokens + [Value(content, s.value.start, Some(Location(s.line, s.column + |w|)))]);
    QuotedValue(next, w);
    var r := Run(next, w + [QUOTE]);
    assert r.Ok?;
    assert r.value.value == last.value;
    assert next.tokens == s.tokens && next.value.start == s.value.start;
    assert next.value.content + w == content;
    assert Location(next.line, next.column + |w| - 1) == Location(s.line, s.column + |w|);
    assert Value(next.value.content + w, next.value.start, Some(Location(next.line, next.column + |w| - 1)))
        == Value(content, s.value.start, Some(Location(s.line, s.column + |w|)));
    assert r.value.tokens == last.tokens;
    assert r.value == last;
  }

  /** A `\` in a quoted value only switches to the escape state. */
  lemma StepEscapeInQuotes(s: Lexer)
    requires s.context == ValueStringContent
    ensures Step(s, ESCAPE) == Ok(s.(column := s.column + 1, context := ValueStringEscapeContent))
  {
    assert Step(s, ESCAPE) == StepValueStringContent(s, ESCAPE);
  }

  /** The character after a `\` is appended, whatever it is. */
  lemma StepEscaped(s: Lexer, c: char)
    requires s.context == ValueStringEscapeContent
    ensures Step(s, c) == Ok(s.(column := s.column + 1, value := Append(s.value, c), context := ValueStringContent))
  {
    assert Step(s, c) == StepValueStringEscapeContent(s, c);
  }

  /** Bare characters extend a bare value and emit nothing. */
  lemma {:induction false} BareValue(s: Lexer, w: string)
    requires s.context == ValueContent
    requires forall i :: 0 <= i < |w| ==> BareChar(w[i])
    ensures Run(s, w) == Ok(Lexer(ValueContent, s.line, s.column + |w|, Value(s.value.content + w, s.value.start, s.value.end), s.tokens))
    decreases |w|
  {
    if |w| == 0 {
      assert s.value.content + w == s.value.content;
    } else {
      var s' := s.(column := s.column + 1, value := Append(s.value, w[0]));
      assert Step(s, w[0]) == Ok(s');
      BareValue(s', w[1..]);
      assert s'.value.content + w[1..] == s.value.content + w;
    }
  }

  /**
   * A bare value immediately followed by `=`, `{` or `}` emits the value,
   * ending on the column before the delimiter, and then the delimiter's
   * token, in that order and in one step.
   */
  lemma BareValueThenDelimiter(s: Lexer, d: char)
    requires s.context == ValueContent
    requires d == EQ || d == OPEN_TAG || d == CLOSE_TAG
    ensures Step(s, d) == Ok(s.(column := s.column + 1, context := TokenStart,
      tokens := s.tokens + [Value(s.value.content, s.value.start, Some(Location(s.line, s.column - 1))),
                            TokenizeStart(d, s.column, s.line).token]))
  {
    assert Step(s, d) == StepValueContent(s, d);
  }

  /** A `\` outside a quoted value is an error at its own location. */
  lemma EscapeOutsideQuotes(s: Lexer)
    requires s.context == TokenStart || s.context == ValueContent
    ensures Step(s, ESCAPE) == Err(UnexpectedEscape(Location(s.line, s.column)))
  {
  }

  /** A `"` inside a bare value is an error at its own location. */
  lemma QuoteInsideBareValue(s: Lexer)
    requires s.context == ValueContent
    ensures Step(s, QUOTE) == Err(UnexpectedQuote(Location(s.line, s.column)))
  {
  }

  /**
   * A newline between tokens or after a bare value starts a new line at
   * column 0; inside a quoted value it is only one more column.
   */
  lemma NewlineAdvancesLine(s: Lexer)
    ensures Step(s, NEWLINE).Ok?
    ensures s.context == TokenStart || s.context == ValueContent ==>
      Step(s, NEWLINE).value.line == s.line + 1 && Step(s, NEWLINE).value.column == 0
    ensures s.context == ValueStringContent || s.context == ValueStringEscapeContent ==>
      Step(s, NEWLINE).value.line == s.line && Step(s, NEWLINE).value.column == s.column + 1
  {
  }

  /**
   * The loop throws exactly on a `\` outside a quoted value and on a `"`
   * inside a bare value, reporting the character's own location; otherwise
   * a step appends at most a value and a delimiter to the tokens.
   */
  lemma StepFailsExactly(s: Lexer, c: char)
    ensures Step(s, c).Err? <==> (c == ESCAPE && (s.context == TokenStart || s.context == ValueContent))
                                 || (c == QUOTE && s.context == ValueContent)
    ensures Step(s, c).Err? ==> Step(s, c).error == (if c == ESCAPE then UnexpectedEscape(Location(s.line, s.column))
                                                     else UnexpectedQuote(Location(s.line, s.column)))
    ensures Step(s, c).Ok? ==> s.tokens <= Step(s, c).value.tokens && |Step(s, c).value.tokens| <= |s.tokens| + 2
  {
  }

  /**
   * A newline ends a bare value: the value is emitted ending one column
   * before the newline, and scanning resumes between tokens at column 0 of
   * the next line.
   */
  lemma BareValueThenNewline(s: Lexer)
    requires s.context == ValueContent
    ensures Step(s, NEWLINE) == Ok(s.(column := 0, line := s.line + 1, context := TokenStart,
      tokens := s.tokens + [Value(s.value.content, s.value.start, Some(Location(s.line, s.column - 1)))]))
  {
  }

  /**
   * Between tokens, blanks are skipped: a space or tab moves one column, a
   * newline to column 0 of the next line, and nothing is emitted.
   */
  lemma BlankBetweenTokens(s: Lexer, b: char)
    requires s.context == TokenStart && (b == SPACE || b == TAB || b == NEWLINE)
    ensures b != NEWLINE ==> Step(s, b) == Ok(s.(column := s.column + 1))
    ensures b == NEWLINE ==> Step(s, b) == Ok(s.(column := 0, line := s.line + 1))
  {
  }

  /** Between tokens, `=`, `{` and `}` each emit their token at their own location. */
  lemma DelimiterBetweenTokens(s: Lexer, d: char)
    requires s.context == TokenStart && (d == EQ || d == OPEN_TAG || d == CLOSE_TAG)
    ensures Step(s, d) == Ok(s.(column := s.column + 1, tokens := s.tokens + [TokenizeStart(d, s.column, s.line).token]))
    ensures TokenizeStart(d, s.column, s.line).token.location == Location(s.line, s.column)
  {
  }

  /** Between tokens, `"` opens an empty quoted value starting at the quote. */
  lemma QuoteOpensValue(s: Lexer)
    requires s.context == TokenStart
    ensures Step(s, QUOTE) == Ok(s.(column := s.column + 1, context := ValueStringContent,
                                    value := Value("", Location(s.line, s.column), None)))
  {
    assert TokenizeStart(QUOTE, s.column, s.line) == TokenResult(Value("", Location(s.line, s.column), None), false);
  }

  /** Between tokens, a bare character opens a bare value holding just that character. */
  lemma BareValueStart(s: Lexer, c: char)
    requires s.context == TokenStart && BareChar(c)
    ensures Step(s, c) == Ok(Lexer(ValueContent, s.line, s.column + 1, Value([c], Location(s.line, s.column), None), s.tokens))
  {
    assert TokenizeStart(c, s.column, s.line) == TokenResult(Value([c], Location(s.line, s.column), None), false);
  }

  /**
   * `tokenizeStart`: `=`, `{` and `}` give a complete token standing for that
   * character at the given location; `"` gives an open empty `Value`; any
   * other character an open one-character `Value`.
   */
  lemma TokenizeStartClassifies(c: char, column: int, line: int)
    ensures var r := TokenizeStart(c, column, line);
      && (r.complete <==> c == EQ || c == OPEN_TAG || c == CLOSE_TAG)
      && (c == EQ ==> r.token == PropertyJoin("=", Location(line, column)))
      && (c == OPEN_TAG ==> r.token == OpenTag(Location(line, column)))
      && (c == CLOSE_TAG ==> r.token == CloseTag(Location(line, column)))
      && (!r.complete ==> r.token.start == Location(line, column) && r.token.end == None
                          && r.token.content == if c == QUOTE then "" else [c])
  {
  }

  // ---------------------------------------------------------------------
  // The normalisation and the preamble
  // ---------------------------------------------------------------------

  /** A one-character pattern is absent exactly when the character is. */
  lemma AbsentChar(s: string, c: char)
    ensures Absent(s, [c]) <==> c !in s
  {
    if c in s {
      var k :| 0 <= k < |s| && s[k] == c;
      assert s[k..k + 1] == [c];
      assert OccursAt(s, [c], k);
    } else {
      forall k | 0 <= k <= |s| - 1 ensures !OccursAt(s, [c], k) {
        assert s[k..k + 1][0] == s[k];
      }
    }
  }

  /** How `replace` changes the number of occurrences of a character. */
  lemma ReplaceFirstCount(s: string, pat: string, rep: string, c: char)
    ensures multiset(ReplaceFirst(s, pat, rep))[c]
         == if Absent(s, pat) then multiset(s)[c] else multiset(s)[c] as int - multiset(pat)[c] + multiset(rep)[c]
  {
    var k := IndexOf(s, pat);
    if k != -1 {
      var before, after := s[..k], s[k + |pat|..];
      assert s == before + pat + after;
      assert multiset(s) == multiset(before) + multiset(pat) + multiset(after);
      assert multiset(ReplaceFirst(s, pat, rep)) == multiset(before) + multiset(rep) + multiset(after);
    }
  }

  /**
   * Only the first `\r\n` and then the first remaining `\r` become `\n`, so
   * all but one or two carriage returns survive normalisation.
   */
  lemma NormalizeCarriageReturns(input: string)
    ensures var n := multiset(input)[CARRIAGE_RETURN];
      multiset(Normalize(input))[CARRIAGE_RETURN]
        == if Absent(input, [CARRIAGE_RETURN, NEWLINE]) then (if n == 0 then 0 else n - 1)
           else (if n <= 2 then 0 else n - 2)
  {
    var crlf := [CARRIAGE_RETURN, NEWLINE];
    var first := ReplaceFirst(input, crlf, [NEWLINE]);
    ReplaceFirstCount(input, crlf, [NEWLINE], CARRIAGE_RETURN);
    ReplaceFirstCount(first, [CARRIAGE_RETURN], [NEWLINE], CARRIAGE_RETURN);
    AbsentChar(first, CARRIAGE_RETURN);
    assert multiset(crlf)[CARRIAGE_RETURN] == 1;
    if !Absent(input, crlf) {
      var k := IndexOf(input, crlf);
      assert input[k..k + 2] == crlf;
      assert input[k] == CARRIAGE_RETURN;
      assert multiset(input)[CARRIAGE_RETURN] >= 1;
    }
  }

  /** Normalisation neither adds nor removes a `{`: their number is unchanged. */
  lemma NormalizeKeepsOpenTag(input: string)
    ensures multiset(Normalize(input))[OPEN_TAG] == multiset(input)[OPEN_TAG]
    ensures OPEN_TAG in Normalize(input) <==> OPEN_TAG in input
  {
    var first := ReplaceFirst(input, [CARRIAGE_RETURN, NEWLINE], [NEWLINE]);
    ReplaceFirstCount(input, [CARRIAGE_RETURN, NEWLINE], [NEWLINE], OPEN_TAG);
    ReplaceFirstCount(first, [CARRIAGE_RETURN], [NEWLINE], OPEN_TAG);
  }

  /** The tokenizer fails with `NoDocumentStart` exactly when there is no `{`. */
  lemma NoDocumentStartIff(input: string)
    ensures Tokenization(input) == Err(NoDocumentStart) <==> OPEN_TAG !in input
  {
    var text := Normalize(input);
    NormalizeKeepsOpenTag(input);
    AbsentChar(text, OPEN_TAG);
    var fileStart := IndexOf(text, [OPEN_TAG]);
    if fileStart != -1 {
      RunErrors(Initial(text, fileStart), text[fileStart + 1..]);
    }
  }

  /** The offset of the end of a string from the character after its last newline. */
  lemma {:induction false} LastNewlineOffset(s: string)
    ensures LastIndexOf(s, NEWLINE) == -1 ==> CharsSinceNewline(s) == |s|
    ensures LastIndexOf(s, NEWLINE) != -1 ==> CharsSinceNewline(s) == |s| - LastIndexOf(s, NEWLINE) - 1
  {
    if |s| > 0 && s[|s| - 1] != NEWLINE {
      LastNewlineOffset(s[..|s| - 1]);
    }
  }

  /** The index `indexOf` finds is the first `{`. */
  lemma FirstOpenTagIndex(text: string, fileStart: nat)
    requires fileStart < |text| && text[fileStart] == OPEN_TAG
    requires OPEN_TAG !in text[..fileStart]
    ensures IndexOf(text, [OPEN_TAG]) == fileStart
  {
    assert text[fileStart..fileStart + 1] == [OPEN_TAG];
    assert OccursAt(text, [OPEN_TAG], fileStart);
    forall j | 0 <= j < fileStart ensures !OccursAt(text, [OPEN_TAG], j) {
      assert text[j..j + 1][0] == text[..fileStart][j];
    }
    var k := IndexOf(text, [OPEN_TAG]);
    assert k != -1;
    assert !(k < fileStart) && !(fileStart < k);
  }

  /** The location of the first `{` in terms of the text before it. */
  lemma StartLocationOfPreamble(text: string, fileStart: nat)
    requires fileStart <= |text|
    ensures var preamble := text[..fileStart];
      StartLocation(text, fileStart)
        == Location(multiset(preamble)[NEWLINE] as int - 1,
                    if NEWLINE in preamble then CharsSinceNewline(preamble) else CharsSinceNewline(preamble) - 1)
  {
    LastNewlineOffset(text[..fileStart]);
  }

  /**
   * The first token is the `OpenTag` of the first `{`. Its line is the number
   * of newlines before it minus one; its column is the number of characters
   * between the last of those newlines and the `{`, or, with no newline
   * before it, the index of the `{` minus one.
   */
  lemma FirstTokenLocation(input: string, fileStart: nat)
    requires fileStart < |Normalize(input)| && Normalize(input)[fileStart] == OPEN_TAG
    requires OPEN_TAG !in Normalize(input)[..fileStart]
    ensures Tokenization(input).Ok? ==>
      var preamble := Normalize(input)[..fileStart];
      && |Tokenization(input).value| > 0
      && Tokenization(input).value[0]
         == OpenTag(Location(multiset(preamble)[NEWLINE] as int - 1,
                             if NEWLINE in preamble then CharsSinceNewline(preamble)
                             else CharsSinceNewline(preamble) - 1))
  {
    FirstTokenIsStart(input, fileStart);
    StartLocationOfPreamble(Normalize(input), fileStart);
  }

  /** The first token is the `OpenTag` at the start location of the first `{`. */
  lemma FirstTokenIsStart(input: string, fileStart: nat)
    requires fileStart < |Normalize(input)| && Normalize(input)[fileStart] == OPEN_TAG
    requires OPEN_TAG !in Normalize(input)[..fileStart]
    ensures Tokenization(input).Ok? ==>
      |Tokenization(input).value| > 0 && Tokenization(input).value[0] == OpenTag(StartLocation(Normalize(input), fileStart))
  {
    var text := Normalize(input);
    FirstOpenTagIndex(text, fileStart);
    var init := Initial(text, fileStart);
    RunExtends(init, text[fileStart + 1..]);
  }

  // ---------------------------------------------------------------------
  // The whole tokenizer
  // ---------------------------------------------------------------------

  /**
   * Every token the tokenizer returns is closed: each `Value` has an end, on
   * the line it starts on, and a bare value spans exactly its characters.
   */
  lemma TokenizationClosed(input: string)
    ensures Tokenization(input).Ok? ==> forall t :: t in Tokenization(input).value ==> Closed(t)
  {
    var text := Normalize(input);
    var fileStart := IndexOf(text, [OPEN_TAG]);
    if fileStart != -1 {
      InitialScanning(text, fileStart);
      RunScanning(Initial(text, fileStart), text[fileStart + 1..]);
    }
  }

  /** The scanning loop starts with only the `OpenTag` of the first `{`. */
  lemma InitialScanning(text: string, fileStart: nat)
    requires fileStart <= |text|
    ensures Scanning(Initial(text, fileStart))
  {
    assert Initial(text, fileStart).tokens == [OpenTag(StartLocation(text, fileStart))];
  }

  /** Without a carriage return, normalisation changes nothing. */
  lemma NormalizeIdentity(input: string)
    requires NoCarriageReturn(input)
    ensures Normalize(input) == input
  {
    AbsentChar(input, CARRIAGE_RETURN);
    assert Absent(input, [CARRIAGE_RETURN, NEWLINE]) by {
      forall k | 0 <= k <= |input| - 2 ensures !OccursAt(input, [CARRIAGE_RETURN, NEWLINE], k) {
        assert input[k..k + 2][0] == input[k];
      }
    }
  }

  /** The scanner state after a `{` that opens the input: line -1, column -1. */
  const DocumentStart := Lexer(TokenStart, -1, 0, Value("", Location(0, 0), None), [OpenTag(Location(-1, -1))])

  /** `replace` keeps the first character when no match can start there. */
  lemma ReplaceFirstKeepsHead(s: string, pat: string, rep: string)
    requires |s| > 0 && |pat| > 0 && s[0] != pat[0]
    ensures |ReplaceFirst(s, pat, rep)| > 0 && ReplaceFirst(s, pat, rep)[0] == s[0]
  {
    var k := IndexOf(s, pat);
    if k != -1 {
      assert |pat| <= |s| ==> s[0..|pat|][0] == s[0];
      assert k != 0;
      assert ReplaceFirst(s, pat, rep) == s[..k] + rep + s[k + |pat|..];
      assert (s[..k] + rep + s[k + |pat|..])[0] == s[..k][0];
    }
  }

  /**
   * A document that opens with `{` starts at line -1, column -1, and the
   * normalised text after that `{` is scanned from there.
   */
  lemma LeadingOpenTag(input: string)
    requires |input| > 0 && input[0] == OPEN_TAG
    ensures |Normalize(input)| > 0 && Normalize(input)[0] == OPEN_TAG
    ensures Tokenization(input) == Emitted(Run(DocumentStart, Normalize(input)[1..]))
  {
    var first := ReplaceFirst(input, [CARRIAGE_RETURN, NEWLINE], [NEWLINE]);
    ReplaceFirstKeepsHead(input, [CARRIAGE_RETURN, NEWLINE], [NEWLINE]);
    ReplaceFirstKeepsHead(first, [CARRIAGE_RETURN], [NEWLINE]);
    var text := Normalize(input);
    assert text[0..1] == [OPEN_TAG];
    assert OccursAt(text, [OPEN_TAG], 0);
    assert IndexOf(text, [OPEN_TAG]) == 0;
    assert text[..0] == [];
    assert Initial(text, 0) == DocumentStart;
  }

  /**
   * A document that ends inside a bare value loses that value: `{` followed
   * by a bare word tokenizes to the `OpenTag` alone.
   */
  lemma UnterminatedValueDropped(w: string)
    requires BareWord(w) && NoCarriageReturn(w)
    ensures Tokenization([OPEN_TAG] + w) == Ok([OpenTag(Location(-1, -1))])
  {
    var input := [OPEN_TAG] + w;
    assert NoCarriageReturn(input) by {
      forall i | 0 <= i < |input| ensures input[i] != CARRIAGE_RETURN {
        if i > 0 {
          assert input[i] == w[i - 1];
        }
      }
    }
    assert Tokenization(input) == Emitted(Run(DocumentStart, w)) by {
      LeadingOpenTag(input);
      NormalizeIdentity(input);
      assert input[1..] == w;
    }
    assert Run(DocumentStart, w).Ok? && Run(DocumentStart, w).value.tokens == DocumentStart.tokens by {
      BareWordRun(DocumentStart, w);
    }
  }

  /**
   * Whatever was scanned before, a bare value still open when the input ends
   * adds nothing to the emitted tokens.
   */
  lemma OpenBareValueDropped(s: Lexer, text: string, w: string)
    requires Run(s, text).Ok? && Run(s, text).value.context == TokenStart
    requires BareWord(w)
    ensures Emitted(Run(s, text + w)) == Emitted(Run(s, text))
  {
    var t := Run(s, text).value;
    RunAppend(s, text, w);
    BareWordRun(t, w);
  }

  /**
   * Whatever was scanned before, a quoted value whose closing `"` never comes
   * adds nothing to the emitted tokens.
   */
  lemma OpenQuotedValueDropped(s: Lexer, text: string, w: string)
    requires Run(s, text).Ok? && Run(s, text).value.context == TokenStart
    requires Unclosed(w, false)
    ensures Emitted(Run(s, text + ([QUOTE] + w))) == Emitted(Run(s, text))
  {
    var t := Run(s, text).value;
    var open := t.(column := t.column + 1, context := ValueStringContent, value := Value("", Location(t.line, t.column), None));
    RunAppend(s, text, [QUOTE] + w);
    assert Run(t, [QUOTE] + w) == Run(open, w) by {
      QuoteOpensValue(t);
      RunCons(t, QUOTE, w, open);
    }
    QuotedUnclosed(open, w);
  }

  /**
   * Inside quotes, text that never closes the value is accepted, emits
   * nothing, and leaves the scanner inside the quoted value.
   */
  lemma {:induction false} QuotedUnclosed(s: Lexer, w: string)
    requires s.context == ValueStringContent || s.context == ValueStringEscapeContent
    requires Unclosed(w, s.context == ValueStringEscapeContent)
    ensures Run(s, w).Ok? && Run(s, w).value.tokens == s.tokens
    ensures Run(s, w).value.context == ValueStringContent || Run(s, w).value.context == ValueStringEscapeContent
    decreases |w|
  {
    if |w| > 0 {
      if s.context == ValueStringEscapeContent {
        StepEscaped(s, w[0]);
      } else if w[0] == ESCAPE {
        StepEscapeInQuotes(s);
      } else {
        assert Step(s, w[0]) == StepValueStringContent(s, w[0]);
      }
      var t := Step(s, w[0]).value;
      assert [w[0]] + w[1..] == w;
      RunCons(s, w[0], w[1..], t);
      QuotedUnclosed(t, w[1..]);
    }
  }

  /**
   * A bare word read between tokens opens a value holding the whole word,
   * starting where the word starts, and emits nothing yet.
   */
  lemma BareWordRun(s: Lexer, w: string)
    requires s.context == TokenStart && BareWord(w)
    ensures Run(s, w) == Ok(Lexer(ValueContent, s.line, s.column + |w|, Value(w, Location(s.line, s.column), None), s.tokens))
  {
    var s' := Lexer(ValueContent, s.line, s.column + 1, Value([w[0]], Location(s.line, s.column), None), s.tokens);
    BareValueStart(s, w[0]);
    assert [w[0]] + w[1..] == w;
    RunCons(s, w[0], w[1..], s');
    BareValue(s', w[1..]);
  }

  /** Scanning `c` then `rest` when `c` moves the scanner to `t`. */
  lemma RunCons(s: Lexer, c: char, rest: string, t: Lexer)
    requires Step(s, c) == Ok(t)
    ensures Run(s, [c] + rest) == Run(t, rest)
  {
    assert ([c] + rest)[1..] == rest;
  }

  /** Scanning a bare word between tokens, then `tail` with the word still open. */
  lemma WordThen(s: Lexer, w: string, tail: string)
    requires s.context == TokenStart && BareWord(w)
    ensures Run(s, w + tail) == Run(Lexer(ValueContent, s.line, s.column + |w|, Value(w, Location(s.line, s.column), None), s.tokens), tail)
  {
    RunAppend(s, w, tail);
    BareWordRun(s, w);
  }

  /**
   * A bare word followed by `=`, `{` or `}`: the word is emitted ending on its
   * last character, then the delimiter's token at the next column.
   */
  lemma BareWordThenDelimiter(s: Lexer, w: string, d: char, rest: string)
    requires s.context == TokenStart && BareWord(w)
    requires d == EQ || d == OPEN_TAG || d == CLOSE_TAG
    ensures Run(s, w + [d] + rest)
         == Run(Lexer(TokenStart, s.line, s.column + |w| + 1, Value(w, Location(s.line, s.column), None),
                      s.tokens + [Value(w, Location(s.line, s.column), Some(Location(s.line, s.column + |w| - 1))),
                                  TokenizeStart(d, s.column + |w|, s.line).token]),
                rest)
  {
    var open := Lexer(ValueContent, s.line, s.column + |w|, Value(w, Location(s.line, s.column), None), s.tokens);
    assert Run(s, w + [d] + rest) == Run(open, [d] + rest) by {
      assert w + [d] + rest == w + ([d] + rest);
      WordThen(s, w, [d] + rest);
    }
    DelimiterClosesWord(s, w, d, rest);
  }

  /** Scanning a delimiter then `rest` with the bare word `w` open since `s`. */
  lemma DelimiterClosesWord(s: Lexer, w: string, d: char, rest: string)
    requires d == EQ || d == OPEN_TAG || d == CLOSE_TAG
    ensures Run(Lexer(ValueContent, s.line, s.column + |w|, Value(w, Location(s.line, s.column), None), s.tokens), [d] + rest)
         == Run(Lexer(TokenStart, s.line, s.column + |w| + 1, Value(w, Location(s.line, s.column), None),
                      s.tokens + [Value(w, Location(s.line, s.column), Some(Location(s.line, s.column + |w| - 1))),
                                  TokenizeStart(d, s.column + |w|, s.line).token]),
                rest)
  {
    var open := Lexer(ValueContent, s.line, s.column + |w|, Value(w, Location(s.line, s.column), None), s.tokens);
    BareValueThenDelimiter(open, d);
    RunCons(open, d, rest, open.(column := open.column + 1, context := TokenStart,
      tokens := open.tokens + [Value(open.value.content, open.value.start, Some(Location(open.line, open.column - 1))),
                               TokenizeStart(d, open.column, open.line).token]));
  }

  /**
   * A bare word followed by a space: the word is emitted ending on its last
   * character, and the space is skipped.
   */
  lemma BareWordThenSpace(s: Lexer, w: string, rest: string)
    requires s.context == TokenStart && BareWord(w)
    ensures Run(s, w + [SPACE] + rest)
         == Run(Lexer(TokenStart, s.line, s.column + |w| + 1, Value(w, Location(s.line, s.column), None),
                      s.tokens + [Value(w, Location(s.line, s.column), Some(Location(s.line, s.column + |w| - 1)))]),
                rest)
  {
    var open := Lexer(ValueContent, s.line, s.column + |w|, Value(w, Location(s.line, s.column), None), s.tokens);
    var next := Lexer(TokenStart, s.line, s.column + |w| + 1, Value(w, Location(s.line, s.column), None),
                      s.tokens + [Value(w, Location(s.line, s.column), Some(Location(s.line, s.column + |w| - 1)))]);
    assert Run(s, w + [SPACE] + rest) == Run(open, [SPACE] + rest) by {
      assert w + [SPACE] + rest == w + ([SPACE] + rest);
      WordThen(s, w, [SPACE] + rest);
    }
    assert Run(open, [SPACE] + rest) == Run(next, rest) by {
      BareValueThenBlank(open, SPACE);
      RunCons(open, SPACE, rest, next);
    }
  }

  /** A space or tab after a bare value emits it, ending on the column before the blank. */
  lemma BareValueThenBlank(s: Lexer, b: char)
    requires s.context == ValueContent && (b == SPACE || b == TAB)
    ensures Step(s, b) == Ok(s.(column := s.column + 1, context := TokenStart,
      tokens := s.tokens + [Value(s.value.content, s.value.start, Some(Location(s.line, s.column - 1)))]))
  {
    assert Step(s, b) == StepValueContent(s, b);
  }
}
