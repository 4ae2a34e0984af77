/**
 * The value types shared by the tokenizer and the parser of the
 * brace-delimited tag language (src/types.ts), plus the error values that
 * stand in for the exceptions both stages throw.
 */
module Types {

  /** `T | null` in the source. */
  datatype Option<+T> = None | Some(value: T)

  /**
   * A zero-based line/column pair. Both are `int`, not `nat`: the tokenizer
   * gives the first `{` of a document line -1 when no newline precedes it,
   * and then also column one less than its index (-1 when it is the first
   * character).
   */
  datatype Location = Location(line: int, column: int)

  /**
   * A token is exactly one of the four kinds. `OpenTag`, `CloseTag` and
   * `PropertyJoin` carry a single location; a `Value` carries its start and an
   * end that is `None` only while the tokenizer is still accumulating it.
   */
  datatype Token =
    | OpenTag(location: Location)
    | CloseTag(location: Location)
    | PropertyJoin(content: string, location: Location)
    | Value(content: string, start: Location, end: Option<Location>)

  /** A `{` or a `}`: the tokens that delimit a tag's property region. */
  predicate IsTagToken(t: Token) {
    t.OpenTag? || t.CloseTag?
  }

  /** `ValueToken`: the tokenizer's in-progress value is always a `Value`. */
  type ValueToken = t: Token | t.Value? witness Value("", Location(0, 0), None)

  /** `PropertyToken`: exactly a `Value` or a `PropertyJoin`. */
  type PropertyToken = t: Token | !IsTagToken(t) witness PropertyJoin("=", Location(0, 0))

  /** A property: a name and either a value (`a=b`) or none (`a`). */
  datatype TagProperty = TagProperty(name: string, value: Option<string>)

  /**
   * A tag: its name, its properties and its children, both in source order.
   * There is no parent link, so a tag is a pure tree.
   */
  datatype ParsedTag = ParsedTag(tagName: string, tagProps: seq<TagProperty>, tagChildren: seq<ParsedTag>)

  /**
   * The errors the core throws, one constructor per kind, with the location
   * its message reports. `UndefinedToken` is the TypeError the parser raises
   * when it reads the type of the first token of an empty list.
   */
  datatype SyntaxError =
    | NoDocumentStart
    | UnexpectedEscape(at: Location)
    | UnexpectedQuote(at: Location)
    | ExpectedOpenTag(at: Location)
    | ExpectedTagName(at: Location)
    | UnterminatedTag(at: Location)
    | DanglingPropertyJoin(at: Location)
    | UndefinedToken

  /** A result or the single error that aborted the computation. */
  datatype Result<+T> = Ok(value: T) | Err(error: SyntaxError)
}
