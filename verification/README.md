# temple-html tokenizer and parser, modelled in Dafny

temple-html reads a small brace-delimited tag language. A document is a run of
`{name prop=value flag "quoted value" {child} ...}` expressions. It starts at
the first `{`, and anything before that is a preamble that is ignored. Reading
is a two-stage pipeline:

- **Tokenizer** (`tokenize` in `src/lexer.ts`):
  - rewrites line endings;
  - emits an `OpenTag` for the first `{`, located from the preamble;
  - runs a four-state machine over the rest: `token-start`, `value-content`,
    `value-string-content` and `value-string-escape-content`;
  - produces a flat list of `OpenTag`, `CloseTag`, `PropertyJoin` and `Value`
    tokens with line/column locations;
  - uses `tokenizeStart` to classify the character that starts a token.
- **Parser** (`src/parser.ts`): a recursive descent over the tokens.
  - `parseChildren` reads sibling tags.
  - `parseTag` reads a name, the property region and the children.
  - `parseProps` folds property tokens into `(name, value | null)` pairs, using
    a pending name and a join flag.

Modules:

- `Types` (types.dfy): the datatypes of `src/types.ts`.
  - `Token` has one constructor per token interface. `PropertyToken` and
    `ValueToken` are subset types of it.
  - `TagProperty` is a name and an optional value.
  - `ParsedTag` is a pure tree.
  - A thrown error becomes a `SyntaxError` inside a `Result`.
- `Text` (text.dfy): the JavaScript string operations the tokenizer uses,
  each with its meaning as a contract. These are `indexOf`, `lastIndexOf`,
  `replace` with a string pattern, and the newline count.
- `Lexer` (lexer.dfy): the state machine.
  - `Step` is one iteration of the scanning loop. `Run` folds it over a string.
  - `Tokenization` is `tokenize` as a function.
  - The methods `Tokenize` and `Scan` are the source's imperative loop, proved
    to compute `Tokenization`.
- `LexerProperties` (lexer_properties.dfy): what the tokenizer guarantees.
  This covers every transition of `Step` (each `case` of the four states has a
  lemma of its own), the loop invariant (`Scanning`), the start location,
  line-ending rewriting, what happens to a value still open at the end, and
  the closedness of every emitted value.
- `Parser` (parser.dfy): the parser as written.
  - `Props`, `ParseTag` and `Children` are functions; `ParseTag` and
    `Children` are mutually recursive.
  - The methods `ParseProps` and `ParseChildren` are the source's loops,
    proved to compute the functions.
- `ParserProperties` (parser_properties.dfy): a printer from trees back to
  tokens is the reference. `parseProps` inverts it on named properties, and
  `parseChildren` inverts it on documents without nesting. Every document
  with a nested tag is rejected.
- `CorrectedParser` (corrected_parser.dfy): the parser with the nested-tag
  remainder fixed (see Findings). Every printed well-formed tree parses back.
  Wherever the parser as written succeeds, the corrected one agrees with it.
- `Examples` (examples.dfy): whole documents through both stages:
  - `{tag prop=val}` and a family like it;
  - a quoted value with an escaped quote;
  - a dangling `=`;
  - a nested document, as written and corrected.

Where the code differs from the documented intent, the model follows the code:

- Line endings: only the first `\r\n`, then the first remaining `\r`, are
  rewritten. `replace` is called with a string pattern.
- The first `{` is placed on line "newlines in the preamble - 1". Its column
  is one less than its index when the preamble has no newline, so the first
  location can be negative and locations are `int`.
- A newline inside a quoted value does not advance the line.
- A value still open at the end of the input is not emitted.
- An empty token list in `parseTag` is a crash in the source (reading a
  property of `undefined`). It is the error `UndefinedToken` here.
- A stray top-level `}` ends `parseChildren` silently.
- A tag with children is not handled as nested: see Findings.

## Model

| member | source | states |
|---|---|---|
| Text.IndexOf | src/lexer.ts:27 | `indexOf`: -1 exactly when the pattern is absent, otherwise its leftmost occurrence |
| Text.LastIndexOf | src/lexer.ts:35 | `lastIndexOf`: -1 exactly when the character is absent, otherwise an index holding it with none after |
| Text.CountChar | src/lexer.ts:34 | the filtered-array length is the number of occurrences of the character (its multiset count) |
| Text.ReplaceFirst | src/lexer.ts:18 | `replace` with a string pattern: unchanged when the pattern is absent, otherwise only the leftmost occurrence is replaced |
| Lexer.Step | src/lexer.ts:70-181 | one turn of the loop, as a definition: the `switch` on the state and the character. Its cases are stated by StepFailsExactly, BlankBetweenTokens, DelimiterBetweenTokens, QuoteOpensValue, BareValueStart, BareValue, BareValueThenNewline, BareValueThenBlank, BareValueThenDelimiter, QuotedValue, StepEscapeInQuotes, StepEscaped and NewlineAdvancesLine |
| Lexer.Run | src/lexer.ts:62-182 | the loop over the remaining text, as a definition: `Step` for each character, stopping at the first error. RunAppend, RunExtends, RunErrors and RunScanning state its properties |
| Lexer.Normalize | src/lexer.ts:18 | the line-ending rewrite, as a definition. NormalizeCarriageReturns, NormalizeKeepsOpenTag, NormalizeIdentity and ReplaceFirstKeepsHead state its properties |
| Lexer.StartLocation | src/lexer.ts:33-40 | the location of the first `{`, as a definition. StartLocationOfPreamble and LastNewlineOffset state it in terms of the preamble |
| Lexer.Initial | src/lexer.ts:42-60 | the state before the loop, as a definition: the `OpenTag` at the start location, the column one past it. InitialScanning and FirstTokenIsStart state its properties |
| Lexer.Emitted | src/lexer.ts:182-184 | what `tokenize` returns once the loop ends, as a definition: the tokens pushed so far, an open value left out. OpenBareValueDropped and OpenQuotedValueDropped state this |
| Lexer.Tokenization | src/lexer.ts:16-185 | `tokenize` as a function: rewrite, find the first `{` or fail, scan from the start state. NoDocumentStartIff, FirstTokenLocation, LeadingOpenTag and TokenizationClosed state its properties; Tokenize computes it |
| Lexer.TokenizeStart | src/lexer.ts:187-236 | a result is complete exactly when its token is not a `Value` |
| Lexer.Tokenize | src/lexer.ts:16-185 | the imperative tokenizer returns exactly `Tokenization(input)` |
| Lexer.Scan | src/lexer.ts:62-184 | the scanning loop with its invariant returns the tokens of `Run` from the start state over the remaining text, or its error |
| LexerProperties.TokenizeStartClassifies | src/lexer.ts:187-236 | `=` gives a complete `PropertyJoin` "=", `{`/`}` complete `OpenTag`/`CloseTag`, `"` an incomplete empty `Value`, any other character an incomplete one-character `Value`, all at the given location |
| LexerProperties.RunAppend | src/lexer.ts:62-182 | scanning `a + b` is scanning `a`, then `b` from the state `a` leaves (an error in `a` stops it) |
| LexerProperties.RunExtends | src/lexer.ts:62-182 | the loop only appends to the token list |
| LexerProperties.RunErrors | src/lexer.ts:62-182 | the only errors the loop raises are the unexpected escape and the unexpected quote |
| LexerProperties.StepScanning | src/lexer.ts:70-181 | every transition keeps the loop invariant: emitted tokens closed, the open value on the current line with the column just past it |
| LexerProperties.RunScanning | src/lexer.ts:62-182 | the invariant holds after any run |
| LexerProperties.InitialScanning | src/lexer.ts:42-60 | the state after the first `OpenTag` satisfies the invariant |
| LexerProperties.TokenizationClosed | src/lexer.ts:104-160 | every token `tokenize` returns is closed: each `Value` has an end on its start line, past its content |
| LexerProperties.QuotedValue | src/lexer.ts:152-171 | in a quoted value, plain characters (newlines included) are appended and the `"` emits the value, ending at the column before the quote; the line never changes and the column advances by one per character |
| LexerProperties.QuotedEscape | src/lexer.ts:164-179 | inside quotes, `\` then any character appends that character verbatim and returns to the string state |
| LexerProperties.StepEscapeInQuotes | src/lexer.ts:164-167 | a `\` in a quoted value only switches to the escape state |
| LexerProperties.StepEscaped | src/lexer.ts:175-180 | in the escape state any character is appended and the string state resumes |
| LexerProperties.EscapedThenClosed | src/lexer.ts:152-180 | from the escape state, an escaped character, plain text and a `"` emit one value holding the character then the text |
| LexerProperties.ClosedAfterEscape | src/lexer.ts:152-171 | after an escaped character, plain text and a `"` close the value with the escaped character kept |
| LexerProperties.EscapedThen | src/lexer.ts:175-180 | scanning an escaped character, then any text, is scanning that text in the string state with the character appended |
| LexerProperties.QuotedText | src/lexer.ts:168-171 | inside quotes, text with no `"` or `\` is appended verbatim, moving only the column, and emits nothing |
| LexerProperties.StepFailsExactly | src/lexer.ts:70-181 | a turn of the loop fails exactly on a `\` in `token-start` or in a bare value, or a `"` in a bare value, with the matching error at the character's location; a successful turn keeps every token and pushes at most two |
| LexerProperties.BlankBetweenTokens | src/lexer.ts:72-81 | in `token-start`, a space or tab only advances the column, and a newline moves to column 0 of the next line |
| LexerProperties.DelimiterBetweenTokens | src/lexer.ts:85-90 | in `token-start`, `=`, `{` or `}` pushes its complete token, located at the character |
| LexerProperties.QuoteOpensValue | src/lexer.ts:85-96 | in `token-start`, a `"` opens an empty quoted value starting at the quote, and pushes nothing |
| LexerProperties.BareValueThenNewline | src/lexer.ts:103-115 | a newline after a bare value emits it, ending one column before, and moves to column 0 of the next line |
| LexerProperties.BareValue | src/lexer.ts:146-148 | bare characters extend a bare value, moving only the column |
| LexerProperties.BareValueStart | src/lexer.ts:85-97 | a bare character in `token-start` opens a one-character value at its location |
| LexerProperties.BareValueThenDelimiter | src/lexer.ts:127-139 | a bare value followed by `=`, `{` or `}` emits the value, ending one column before, and then the delimiter token, in that order, in one step |
| LexerProperties.BareValueThenBlank | src/lexer.ts:116-126 | a space or tab after a bare value emits it, ending one column before |
| LexerProperties.BareWordRun | src/lexer.ts:85-148 | a bare word from `token-start` is one open value spanning the word |
| LexerProperties.BareWordThenDelimiter | src/lexer.ts:127-139 | a bare word and a delimiter emit the value and the delimiter token at the columns they occupy |
| LexerProperties.DelimiterClosesWord | src/lexer.ts:127-139 | with a bare word open, a delimiter then any text is that text scanned after the word and the delimiter token are emitted |
| LexerProperties.BareWordThenSpace | src/lexer.ts:116-126 | a bare word and a space emit the value at the columns it occupies |
| LexerProperties.EscapeOutsideQuotes | src/lexer.ts:82-84 | a `\` in `token-start` or (lines 140-142) in a bare value is an error at its location |
| LexerProperties.QuoteInsideBareValue | src/lexer.ts:143-145 | a `"` inside a bare value is an error at its location |
| LexerProperties.NewlineAdvancesLine | src/lexer.ts:73-76 | a newline in `token-start` or (lines 112-113) in a bare value moves to the next line at column 0; inside quotes it only advances the column |
| LexerProperties.NormalizeCarriageReturns | src/lexer.ts:18 | rewriting removes exactly one or two carriage returns (the first `\r\n`'s, then the first remaining one) and no more |
| LexerProperties.NormalizeKeepsOpenTag | src/lexer.ts:18 | rewriting line endings neither adds nor removes a `{`: their number is unchanged, so one is present after exactly when one was before |
| LexerProperties.NormalizeIdentity | src/lexer.ts:18 | text without carriage returns is left as it is |
| LexerProperties.ReplaceFirstKeepsHead | src/lexer.ts:18 | replacing a pattern that does not start with the text's first character keeps that character first |
| LexerProperties.NoDocumentStartIff | src/lexer.ts:27-31 | `tokenize` fails for lack of a document start exactly when the input has no `{` |
| LexerProperties.FirstOpenTagIndex | src/lexer.ts:27 | the document starts at the first `{` |
| LexerProperties.LastNewlineOffset | src/lexer.ts:35-39 | the offset from the preamble's last newline is the number of characters since a newline |
| LexerProperties.StartLocationOfPreamble | src/lexer.ts:33-40 | the start line is the preamble's newline count minus 1; the column is the characters since the last newline, minus 1 when there is none |
| LexerProperties.FirstTokenLocation | src/lexer.ts:27-48 | a successful `tokenize` starts with the `OpenTag` of the first `{` at that preamble-derived location |
| LexerProperties.FirstTokenIsStart | src/lexer.ts:42-48 | the first token is the `OpenTag` at the start location |
| LexerProperties.LeadingOpenTag | src/lexer.ts:18-53 | for every input starting with `{`, the rewrite keeps the `{` first, and the document is scanned from line -1, column 0, after an `OpenTag` at (-1, -1) |
| LexerProperties.UnterminatedValueDropped | src/lexer.ts:182-184 | `{` followed by one bare word tokenizes to the `OpenTag` alone: the word is never emitted |
| LexerProperties.OpenBareValueDropped | src/lexer.ts:62-184 | after any scan that ends between tokens, a bare word at the end of the input adds no token |
| LexerProperties.OpenQuotedValueDropped | src/lexer.ts:62-184 | after any scan that ends between tokens, a `"` followed by text that never closes it (every `"` in it escaped, possibly ending in a `\`) adds no token |
| LexerProperties.QuotedUnclosed | src/lexer.ts:152-180 | inside quotes, text that never closes the value (every `"` escaped) never fails, emits nothing, and leaves the scanner inside the quoted value, escaped or not |
| Parser.Loc | src/parser.ts:40-47 | `locString` as a definition, returning the location itself rather than its text: `start` for a `Value`, `location` otherwise. ExpectedOpenTagLocation states it in use |
| Parser.PropsFrom | src/parser.ts:100-128 | the loop of `parseProps` as a recursive definition over the accumulated properties, the pending name and the join flag. PropsFromPrinted, PropsNamed, PropsCount and PropsErrorAtJoin state its properties |
| Parser.Props | src/parser.ts:94-131 | `parseProps` as a definition: `PropsFrom` from no pending name, no join, nothing accumulated. PropsRoundTrip states it inverts the printer; ParseProps computes it |
| Parser.Children | src/parser.ts:4-36 | `parseChildren` as a definition, mutually recursive with `ParseTag`. ChildrenFlat, ChildrenCons, ChildrenHead, FlatRoundTrip and NestedTagRejected state its properties; ParseChildren computes it |
| Parser.FindDelimiter | src/parser.ts:65 | `findIndex`: -1 exactly when there is no `{`/`}`, otherwise the first one |
| Parser.ParseProps | src/parser.ts:94-131 | the imperative loop returns exactly `Props(tokens)` |
| Parser.ParseTag | src/parser.ts:54-92 | an empty list is `UndefinedToken`; a non-`Value` first token is `ExpectedTagName` at its location; a success leaves a strictly shorter remainder |
| Parser.ParseTagShape | src/parser.ts:62-90 | on success the name is the first token's content, the properties are `parseProps` of the tokens strictly between the name and the first `{`/`}`, and the remainder is exactly what follows that delimiter |
| Parser.ParseTagChildren | src/parser.ts:79-90 | after a `}` the tag has no children; a tag with children leaves a remainder starting at its first child's name |
| Parser.ChildrenFlat | src/parser.ts:4-36 | no tag in a successful `parseChildren` result has children |
| Parser.ParseChildren | src/parser.ts:4-36 | the imperative loop returns exactly `Children(tokens)` |
| ParserProperties.PropsFromPrinted | src/parser.ts:100-128 | reading printed named properties gives the accumulated ones, the pending name, then the printed ones in order |
| ParserProperties.PropsRoundTrip | src/parser.ts:94-131 | `parseProps` reads back every printed list of named properties, order and duplicates kept |
| ParserProperties.PropsNamed | src/parser.ts:103-128 | every property returned has a non-empty name |
| ParserProperties.PropsCount | src/parser.ts:100-128 | there are never more properties than `Value` tokens (plus the pending name) |
| ParserProperties.PropsErrorAtJoin | src/parser.ts:118-120 | `parseProps` fails only with a dangling join, located at a `=` of the input |
| ParserProperties.JoinWithoutName | src/parser.ts:118-120 | a `=` read with no pending name, or an empty one, fails with a dangling join at that `=`, whatever was read before and whatever follows |
| ParserProperties.DanglingJoinInTag | src/parser.ts:65-75 | a tag whose property region starts with `=` fails with a dangling join at that `=`, whichever `{` or `}` ends the region |
| ParserProperties.EmptyName | src/parser.ts:103-120 | an empty name alone is dropped, and before a `=` makes it dangling |
| ParserProperties.TrailingJoin | src/parser.ts:121-128 | `name =` at the end gives the property with no value |
| ParserProperties.LeafTag | src/parser.ts:79-90 | a name, properties and `}` give a leaf whose remainder is exactly the tokens after the `}` |
| ParserProperties.ParseFlatTag | src/parser.ts:54-92 | a printed tag without children parses back, leaving what follows |
| ParserProperties.FlatRoundTrip | src/parser.ts:4-36 | printed siblings without children parse back in order, up to the end or a `}` |
| ParserProperties.ChildrenCons | src/parser.ts:25-30 | one loop turn: the parsed tag first, then the siblings from its remainder |
| ParserProperties.ChildrenHead | src/parser.ts:12-30 | a successful result from a `{` starts with the tag `parseTag` reads after it |
| ParserProperties.ChildrenIffOpenDelimiter | src/parser.ts:79-80 | a tag gets children exactly when its property region ends at a `{` |
| ParserProperties.NestedTagRejected | src/parser.ts:80-90 | any printed tag with children makes `parseChildren` fail |
| ParserProperties.ExpectedOpenTagLocation | src/parser.ts:21-23 | a leading token that is neither `{` nor `}` is `ExpectedOpenTag` at its `locString` location (`start` for a `Value`) |
| ParserProperties.UnterminatedTagReported | src/parser.ts:62-69 | a name followed by any tokens none of which is `{` or `}` is `UnterminatedTag` at the name |
| ParserProperties.PrintedPropertiesUnterminated | src/parser.ts:67-69 | a name followed by any printed property list is `UnterminatedTag` at the name |
| CorrectedParser.TagFixed | src/parser.ts:54-92 | the corrected `parseTag` keeps the source's errors and a shorter remainder, and names the tag by its first token |
| CorrectedParser.ChildrenFixed | src/parser.ts:4-36 | the corrected `parseChildren` leaves a remainder that is empty or starts with `}` |
| CorrectedParser.TagRoundTrip | src/parser.ts:54-92 | every printed well-formed tag, nested at any depth, parses back and leaves what follows its `}` |
| CorrectedParser.TagsRoundTrip | src/parser.ts:4-36 | printed well-formed siblings parse back, leaving the closing `}` or nothing |
| CorrectedParser.AgreesWhereAccepted | src/parser.ts:4-36 | wherever the parser as written succeeds, the corrected one returns the same tags |
| Examples.DelimitedTokenization | src/lexer.ts:16-185 | `{w1 w2=w3}` for bare words tokenizes to `{`, three values, `=` and `}` at the exact lines and columns |
| Examples.DelimitedParse | src/parser.ts:4-36 | those tokens parse to one tag `w1` with the property `(w2, w3)` |
| Examples.TagPropVal | src/main.ts:37-38 | `{tag prop=val}` through both stages gives the tag `tag` with property `(prop, val)` |
| Examples.JoinedProperty | src/parser.ts:103-108 | `name = value` gives one property with that value |
| Examples.SingleLeafDocument | src/parser.ts:4-36 | `{ name props }` gives a single leaf tag |
| Examples.QuotedEscapeScan | src/lexer.ts:152-180 | `"a\"b"` yields the content `a"b`, ending at the column before the closing quote |
| Examples.UnclosedQuotedTexts | src/lexer.ts:164-180 | after an opening `"`, the text `a\"b` and the text `abc\` leave the value open, while `a"b` closes it |
| Examples.DanglingJoin | src/parser.ts:118-120 | a tag `a` whose property region starts with `=` (`{a =x}`) fails with a dangling join at the `=` |
| Examples.NestedAsWritten | src/parser.ts:80-90 | the tokens of `{a {b} {c x=1}}` fail with `ExpectedOpenTag` at `b` |
| Examples.ParentDocument | src/parser.ts:21-30 | whatever the children parse to, a tag followed by a child `{` makes the loop meet the child's name and fail there |
| Examples.NestedSiblings | src/parser.ts:4-36 | `{b} {c x=1}` alone parses to the two leaves |
| Examples.NestedCorrected | src/parser.ts:54-92 | with the correction, the tokens of `{a {b} {c x=1}}` parse to `a` with children `b` and `c` |

## Left out

- `src/main.ts`: the file check, file reading, `process.argv` and console output are I/O and are not modelled. The pipeline it runs, `parseChildren(tokenize(text))`, is what the Examples compose.
- The `console.log` calls in `src/parser.ts` are logging only.
- Error messages are not modelled as text. Each is a `SyntaxError` constructor carrying its location. Two carry none: `NoDocumentStart`, whose message has no location, and `UndefinedToken`, which stands for the crash on an empty token list.
- `charCodeAt`/`String.fromCharCode` work on UTF-16 code units. The model reads a `seq<char>`, so surrogate pairs are not modelled.
- `src/characters.ts` is not part of this model. The usual character codes are assumed: newline 10, tab 9, space 32, `"`, `\`, `=`, `{`, `}`.
- The `options` parameter of `tokenize` is never read and is not modelled.
- LexerProperties.TokenizationClosed: for a quoted value it states only that the end lies at or after the start column plus the content length. The exact end column of each value is stated by the lemmas for the transitions that emit it: QuotedValue and EscapedThenClosed for a quoted value, BareValueThenDelimiter, BareValueThenBlank and BareValueThenNewline for a bare one.
- The Examples use abstract locations where the tokens did not come from the tokenizer. Only DelimitedTokenization, TagPropVal and QuotedEscapeScan fix every column.

## Findings

| source | as written | input that shows it | evidently intended | confidence | as-written member | corrected member |
|---|---|---|---|---|---|---|
| src/parser.ts:80-90 | when the property region ends at a `{`, `parseTag` returns the tokens after that `{` as its remainder, because `parseChildren` returns no remainder; the enclosing loop then meets the first child's name and throws | `{a {b} {c x=1}}`: `Expected an open tag` at `b` | the remainder starts after the `}` that closes the tag, so nested tags parse | not executed | Examples.NestedAsWritten (in general ParserProperties.NestedTagRejected) | CorrectedParser.TagRoundTrip (with CorrectedParser.AgreesWhereAccepted and Examples.NestedCorrected) |
