/**
 * The parser of src/parser.ts with nested tags handled: `parseChildren`
 * also returns the tokens it did not consume, and `parseTag` continues after
 * the `}` that closes its children. Everything else (names, properties,
 * errors and their locations) is as in module Parser.
 *
 * Module ParserProperties shows the parser as written rejects every printed
 * tree with a nested tag; here every printed well-formed tree parses back,
 * and wherever the parser as written succeeds this one returns the same
 * tags.
 */
module CorrectedParser {
  import opened Types
  import opened Parser
  import opened ParserProperties

  /** Parsed siblings and the tokens after them (the closing `}` or nothing). */
  datatype Siblings = Siblings(tags: seq<ParsedTag>, remaining: seq<Token>)

  /**
   * A tag body, given the tokens after its `{`, with the remainder after the
   * `}` that closes the tag. Children that run to the end of the input leave
   * the tag unterminated.
   */
  function TagFixed(tokens: seq<Token>): (r: Result<TagResult>)
    decreases |tokens|, 1
    ensures |tokens| == 0 ==> r == Err(UndefinedToken)
    ensures |tokens| > 0 && !tokens[0].Value? ==> r == Err(ExpectedTagName(Loc(tokens[0])))
    ensures r.Ok? ==> |r.value.remaining| < |tokens| && r.value.tag.tagName == tokens[0].content
  {
    if |tokens| == 0 then Err(UndefinedToken)
    else if !tokens[0].Value? then Err(ExpectedTagName(Loc(tokens[0])))
    else
      var next := tokens[1..];
      var k := FindDelimiter(next);
      if k == -1 then Err(UnterminatedTag(Loc(tokens[0])))
      else
        var propsTokens: seq<PropertyToken> := next[..k];
        match (if k == 0 then Ok([]) else Props(propsTokens))
        case Err(e) => Err(e)
        case Ok(tagProps) =>
          if next[k].CloseTag? then Ok(TagResult(ParsedTag(tokens[0].content, tagProps, []), next[k + 1..]))
          else
            match ChildrenFixed(next[k..])
            case Err(e) => Err(e)
            case Ok(children) =>
              if |children.remaining| == 0 then Err(UnterminatedTag(Loc(tokens[0])))
              else Ok(TagResult(ParsedTag(tokens[0].content, tagProps, children.tags), children.remaining[1..]))
  }

  /**
   * Sibling tags up to the end of the tokens or a `}`, which is left first in
   * the remainder.
   */
  function ChildrenFixed(tokens: seq<Token>): (r: Result<Siblings>)
    decreases |tokens|, 0
    ensures r.Ok? ==> |r.value.remaining| <= |tokens|
    ensures r.Ok? ==> r.value.remaining == [] || r.value.remaining[0].CloseTag?
  {
    if |tokens| == 0 || tokens[0].CloseTag? then Ok(Siblings([], tokens))
    else if !tokens[0].OpenTag? then Err(ExpectedOpenTag(Loc(tokens[0])))
    else
      match TagFixed(tokens[1..])
      case Err(e) => Err(e)
      case Ok(result) =>
        match ChildrenFixed(result.remaining)
        case Err(e) => Err(e)
        case Ok(siblings) => Ok(Siblings([result.tag] + siblings.tags, siblings.remaining))
  }

  /** A tree whose every property, at every depth, is named. */
  predicate WellFormed(t: ParsedTag)
    decreases t
  {
    Named(t.tagProps) && forall i :: 0 <= i < |t.tagChildren| ==> WellFormed(t.tagChildren[i])
  }

  /** Every printed well-formed tag parses back, leaving what follows its `}`. */
  lemma {:induction false} TagRoundTrip(t: ParsedTag, rest: seq<Token>)
    requires WellFormed(t)
    ensures TagFixed(TagTokens(t)[1..] + rest) == Ok(TagResult(t, rest))
    decreases t, 1
  {
    if t.tagChildren == [] {
      PrintedLeaf(t, rest);
    } else {
      TagsRoundTrip(t.tagChildren, [CloseTag(Nowhere)] + rest);
      PrintedParent(t, rest);
    }
  }

  /** A printed well-formed leaf parses back. */
  lemma PrintedLeaf(t: ParsedTag, rest: seq<Token>)
    requires Named(t.tagProps) && t.tagChildren == []
    ensures TagFixed(TagTokens(t)[1..] + rest) == Ok(TagResult(t, rest))
  {
    var props := PropTokens(t.tagProps);
    var close: Token := CloseTag(Nowhere);
    var tokens := TagTokens(t)[1..] + rest;
    TagBody(t, rest);
    assert TagsTokens(t.tagChildren) == [];
    assert tokens[1..] == props + [close] + rest;
    PropsRoundTrip(t.tagProps);
    LeafTagFixed(tokens, props, close, rest, t.tagProps);
  }

  /** A printed parent parses back once its printed children do, up to its `}`. */
  lemma PrintedParent(t: ParsedTag, rest: seq<Token>)
    requires Named(t.tagProps) && t.tagChildren != []
    requires ChildrenFixed(TagsTokens(t.tagChildren) + ([CloseTag(Nowhere)] + rest))
          == Ok(Siblings(t.tagChildren, [CloseTag(Nowhere)] + rest))
    ensures TagFixed(TagTokens(t)[1..] + rest) == Ok(TagResult(t, rest))
  {
    var props := PropTokens(t.tagProps);
    var close: Token := CloseTag(Nowhere);
    var after := TagsTokens(t.tagChildren) + ([close] + rest);
    var tokens := TagTokens(t)[1..] + rest;
    TagBody(t, rest);
    assert tokens[1..] == props + after;
    PropsRoundTrip(t.tagProps);
    PrintedSiblingsStart(t.tagChildren);
    ParentTagFixed(tokens, props, after, t.tagProps);
    assert ([close] + rest)[1..] == rest;
  }

  /** `TagFixed` on a name, then properties up to a `}`: a leaf, and what follows the `}`. */
  lemma LeafTagFixed(tokens: seq<Token>, props: seq<PropertyToken>, close: Token, rest: seq<Token>, tagProps: seq<TagProperty>)
    requires |tokens| > 0 && tokens[0].Value? && close.CloseTag?
    requires tokens[1..] == props + [close] + rest
    requires Props(props) == Ok(tagProps)
    ensures TagFixed(tokens) == Ok(TagResult(ParsedTag(tokens[0].content, tagProps, []), rest))
  {
    DelimiterSplit(tokens[1..], props, close, rest);
  }

  /**
   * `TagFixed` on a name, then properties up to a `{`: the children read from
   * that `{`, and what follows the `}` that closes them.
   */
  lemma ParentTagFixed(tokens: seq<Token>, props: seq<PropertyToken>, after: seq<Token>, tagProps: seq<TagProperty>)
    requires |tokens| > 0 && tokens[0].Value? && |after| > 0 && after[0].OpenTag?
    requires tokens[1..] == props + after
    requires Props(props) == Ok(tagProps)
    ensures ChildrenFixed(after).Ok? && ChildrenFixed(after).value.remaining != [] ==>
      TagFixed(tokens) == Ok(TagResult(ParsedTag(tokens[0].content, tagProps, ChildrenFixed(after).value.tags),
                                       ChildrenFixed(after).value.remaining[1..]))
  {
    assert after == [after[0]] + after[1..];
    DelimiterSplit(tokens[1..], props, after[0], after[1..]);
  }

  /**
   * Printed well-formed siblings parse back when they end the input or are
   * followed by a `}`, which is left in the remainder.
   */
  lemma {:induction false} TagsRoundTrip(ts: seq<ParsedTag>, rest: seq<Token>)
    requires forall i :: 0 <= i < |ts| ==> WellFormed(ts[i])
    requires rest == [] || rest[0].CloseTag?
    ensures ChildrenFixed(TagsTokens(ts) + rest) == Ok(Siblings(ts, rest))
    decreases ts, 0
  {
    if |ts| == 0 {
      assert TagsTokens(ts) + rest == rest;
    } else {
      assert [ts[0]] + ts[1..] == ts;
      var tail := TagsTokens(ts[1..]) + rest;
      var tokens := TagsTokens(ts) + rest;
      assert tokens[0] == OpenTag(Nowhere) && TagFixed(tokens[1..]) == Ok(TagResult(ts[0], tail)) by {
        PrintedSiblings(ts, rest);
        TagRoundTrip(ts[0], tail);
      }
      assert ChildrenFixed(tail) == Ok(Siblings(ts[1..], rest)) by {
        TagsRoundTrip(ts[1..], rest);
      }
      SiblingsCons(tokens, ts[0], tail, Siblings(ts[1..], rest));
    }
  }

  /** One turn of the corrected loop: a tag, then its siblings. */
  lemma SiblingsCons(tokens: seq<Token>, tag: ParsedTag, tail: seq<Token>, siblings: Siblings)
    requires |tokens| > 0 && tokens[0].OpenTag?
    requires TagFixed(tokens[1..]) == Ok(TagResult(tag, tail))
    requires ChildrenFixed(tail) == Ok(siblings)
    ensures ChildrenFixed(tokens) == Ok(Siblings([tag] + siblings.tags, siblings.remaining))
  {
  }

  /**
   * Wherever the parser as written succeeds, the corrected one returns the
   * same tags.
   */
  lemma {:induction false} AgreesWhereAccepted(tokens: seq<Token>)
    ensures Children(tokens).Ok? ==> ChildrenFixed(tokens).Ok? && ChildrenFixed(tokens).value.tags == Children(tokens).value
    decreases |tokens|
  {
    if Children(tokens).Ok? && |tokens| > 0 && tokens[0].OpenTag? {
      var r := ParseTag(tokens[1..]);
      ChildrenHead(tokens);
      ChildrenFlat(tokens);
      assert r.Ok? && r.value.tag.tagChildren == [];
      ChildrenIffOpenDelimiter(tokens[1..]);
      assert TagFixed(tokens[1..]) == r;
      AgreesWhereAccepted(r.value.remaining);
    }
  }
}
