/**
 * The recursive-descent parser of src/parser.ts, as written.
 *
 * `Children` and `ParseTag` are the mutually recursive pair
 * `parseChildren`/`parseTag` as functions; `Props` is `parseProps`. The
 * methods `ParseChildren` and `ParseProps` are the source's loops, proved to
 * compute the functions.
 *
 * As written, `parseTag` hands back the tokens after the child `OpenTag` as
 * its remainder, not the tokens after the child subtree, because
 * `parseChildren` returns no remainder. The model keeps that behaviour.
 */
module Parser {
  import opened Types

  /** `locString`: where a token is reported, its start for a `Value`. */
  function Loc(t: Token): Location {
    if t.Value? then t.start else t.location
  }

  /**
   * `findIndex(a => a.type === 'CloseTag' || a.type === 'OpenTag')`: the
   * index of the first `{` or `}`, or -1.
   */
  function FindDelimiter(ts: seq<Token>): (r: int)
    ensures -1 <= r < |ts|
    ensures r == -1 <==> forall i :: 0 <= i < |ts| ==> !IsTagToken(ts[i])
    ensures r != -1 ==> IsTagToken(ts[r]) && forall i :: 0 <= i < r ==> !IsTagToken(ts[i])
  {
    if |ts| == 0 then -1
    else if IsTagToken(ts[0]) then 0
    else
      var k := FindDelimiter(ts[1..]);
      if k == -1 then -1 else k + 1
  }

  /** A pending property name counts only when it is non-empty (JS truthiness). */
  predicate Truthy(current: Option<string>) {
    current.Some? && current.value != ""
  }

  /**
   * The loop of `parseProps` from the state (`current`, `joint`, `acc`) over
   * the tokens `ts` still to read.
   */
  function PropsFrom(ts: seq<PropertyToken>, current: Option<string>, joint: bool, acc: seq<TagProperty>)
    : Result<seq<TagProperty>>
    decreases |ts|
  {
    if |ts| == 0 then
      Ok(if Truthy(current) then acc + [TagProperty(current.value, None)] else acc)
    else
      var token := ts[0];
      if token.Value? && Truthy(current) then
        if joint then PropsFrom(ts[1..], None, false, acc + [TagProperty(current.value, Some(token.content))])
        else PropsFrom(ts[1..], Some(token.content), joint, acc + [TagProperty(current.value, None)])
      else if token.Value? then PropsFrom(ts[1..], Some(token.content), false, acc)
      else if !Truthy(current) then Err(DanglingPropertyJoin(Loc(token)))
      else PropsFrom(ts[1..], current, true, acc)
  }

  /** `parseProps`: the properties a run of `Value`/`PropertyJoin` tokens spells. */
  function Props(ts: seq<PropertyToken>): Result<seq<TagProperty>> {
    PropsFrom(ts, None, false, [])
  }

  /** `parseProps` as the source writes it: one loop with a pending name and a join flag. */
  method ParseProps(tokens: seq<PropertyToken>) returns (r: Result<seq<TagProperty>>)
    ensures r == Props(tokens)
  {
    var props: seq<TagProperty> := [];
    var current: Option<string> := None;
    var joint := false;
    for i := 0 to |tokens|
      invariant PropsFrom(tokens[i..], current, joint, props) == Props(tokens)
    {
      var token := tokens[i];
      assert tokens[i..][0] == token && tokens[i..][1..] == tokens[i + 1..];
      if token.Value? && Truthy(current) {
        if joint {
          props := props + [TagProperty(current.value, Some(token.content))];
          current := None;
          joint := false;
        } else {
          props := props + [TagProperty(current.value, None)];
          current := Some(token.content);
        }
      } else if token.Value? {
        current := Some(token.content);
        joint := false;
      } else if token.PropertyJoin? && !Truthy(current) {
        return Err(DanglingPropertyJoin(Loc(token)));
      } else if token.PropertyJoin? {
        joint := true;
      }
    }
    if Truthy(current) {
      props := props + [TagProperty(current.value, None)];
    }
    return Ok(props);
  }

  /** A parsed tag and the tokens `parseTag` leaves for its caller. */
  datatype TagResult = TagResult(tag: ParsedTag, remaining: seq<Token>)

  /**
   * `parseTag`: a tag body, given the tokens after its `{`. The name is the
   * first token, the properties run up to the first `{` or `}`, and when that
   * delimiter is a `{` the children are parsed from it. The remainder is the
   * tokens after that delimiter, whichever it is (see `ParseTagShape`).
   */
  function ParseTag(tokens: seq<Token>): (r: Result<TagResult>)
    decreases |tokens|, 1
    ensures |tokens| == 0 ==> r == Err(UndefinedToken)
    ensures |tokens| > 0 && !tokens[0].Value? ==> r == Err(ExpectedTagName(Loc(tokens[0])))
    ensures r.Ok? ==> |r.value.remaining| < |tokens|
  {
    if |tokens| == 0 then Err(UndefinedToken)
    else if !tokens[0].Value? then Err(ExpectedTagName(Loc(tokens[0])))
    else
      var tagName := tokens[0].content;
      var nextTokens := tokens[1..];
      var nextTagTokenIndex := FindDelimiter(nextTokens);
      if nextTagTokenIndex == -1 then Err(UnterminatedTag(Loc(tokens[0])))
      else
        var propsTokens: seq<PropertyToken> := nextTokens[..nextTagTokenIndex];
        match (if nextTagTokenIndex == 0 then Ok([]) else Props(propsTokens))
        case Err(e) => Err(e)
        case Ok(tagProps) =>
          var nextChildToken := nextTokens[nextTagTokenIndex];
          match (if nextChildToken.CloseTag? then Ok([]) else Children(nextTokens[nextTagTokenIndex..]))
          case Err(e) => Err(e)
          case Ok(tagChildren) =>
            Ok(TagResult(ParsedTag(tagName, tagProps, tagChildren), nextTokens[nextTagTokenIndex + 1..]))
  }

  /**
   * `parseChildren`: sibling tags up to the end of the tokens or a `}`,
   * which is not consumed.
   */
  function Children(tokens: seq<Token>): (r: Result<seq<ParsedTag>>)
    decreases |tokens|, 0
  {
    if |tokens| == 0 || tokens[0].CloseTag? then Ok([])
    else if !tokens[0].OpenTag? then Err(ExpectedOpenTag(Loc(tokens[0])))
    else
      match ParseTag(tokens[1..])
      case Err(e) => Err(e)
      case Ok(result) =>
        match Children(result.remaining)
        case Err(e) => Err(e)
        case Ok(siblings) => Ok([result.tag] + siblings)
  }

  /**
   * What `parseTag` returns when it succeeds: the name is the first token, the
   * first `{` or `}` after it is at index `d`, the properties are what
   * `parseProps` reads from the tokens between the two, and the remainder is
   * everything after that delimiter.
   */
  lemma ParseTagShape(tokens: seq<Token>)
    ensures var r := ParseTag(tokens);
      r.Ok? ==>
        var rest := r.value.remaining;
        var d := |tokens| - |rest| - 1;
        && tokens[0].Value? && r.value.tag.tagName == tokens[0].content
        && 1 <= d && rest == tokens[d + 1..]
        && IsTagToken(tokens[d]) && (forall i :: 1 <= i < d ==> !IsTagToken(tokens[i]))
        && Props(tokens[1..d]) == Ok(r.value.tag.tagProps)
  {
    if ParseTag(tokens).Ok? {
      var next := tokens[1..];
      var k := FindDelimiter(next);
      assert next[k + 1..] == tokens[k + 2..];
      assert next[..k] == tokens[1..k + 1];
      forall i | 1 <= i < k + 1 ensures !IsTagToken(tokens[i]) {
        assert tokens[i] == next[i - 1];
      }
    }
  }

  /**
   * A tag `parseTag` accepts after a `}` is a leaf; one that did get children
   * leaves a remainder that starts at its first child's name.
   */
  lemma ParseTagChildren(tokens: seq<Token>)
    ensures var r := ParseTag(tokens);
      r.Ok? ==>
        var rest := r.value.remaining;
        && (tokens[|tokens| - |rest| - 1].CloseTag? ==> r.value.tag.tagChildren == [])
        && (r.value.tag.tagChildren != [] ==> |rest| > 0 && rest[0].Value?)
  {
    if ParseTag(tokens).Ok? {
      var next := tokens[1..];
      var k := FindDelimiter(next);
      assert next[k + 1..] == tokens[k + 2..];
      assert tokens[k + 1] == next[k];
      if next[k].OpenTag? && ParseTag(tokens).value.tag.tagChildren != [] {
        var inner := next[k..];
        assert Children(inner).Ok? && Children(inner).value != [];
        assert ParseTag(inner[1..]).Ok?;
        assert inner[1..] == next[k + 1..];
      }
    }
  }

  /**
   * As written, no tag in a successful `parseChildren` result has children:
   * the remainder of a tag with children starts at its first child's name,
   * where the loop expects a `{`.
   */
  lemma {:induction false} ChildrenFlat(tokens: seq<Token>)
    ensures Children(tokens).Ok? ==> forall i :: 0 <= i < |Children(tokens).value| ==> Children(tokens).value[i].tagChildren == []
    decreases |tokens|
  {
    if Children(tokens).Ok? && |tokens| > 0 && tokens[0].OpenTag? {
      var result := ParseTag(tokens[1..]).value;
      ParseTagChildren(tokens[1..]);
      assert Children(result.remaining).Ok?;
      assert result.tag.tagChildren != [] ==> Children(result.remaining).Err?;
      assert result.tag.tagChildren == [];
      ChildrenFlat(result.remaining);
      assert Children(tokens).value == [result.tag] + Children(result.remaining).value;
    }
  }

  /** The tags `done` already collected, ahead of the outcome `r` of the rest. */
  function After(done: seq<ParsedTag>, r: Result<seq<ParsedTag>>): Result<seq<ParsedTag>> {
    match r
    case Err(e) => Err(e)
    case Ok(rest) => Ok(done + rest)
  }

  /** `parseChildren` as the source writes it: a loop over the remaining tokens. */
  method ParseChildren(tokens: seq<Token>) returns (r: Result<seq<ParsedTag>>)
    ensures r == Children(tokens)
  {
    if |tokens| == 0 {
      return Ok([]);
    }
    var children: seq<ParsedTag> := [];
    var remaining := tokens;
    assert After([], Children(tokens)) == Children(tokens) by {
      if Children(tokens).Ok? {
        assert [] + Children(tokens).value == Children(tokens).value;
      }
    }
    while |remaining| > 0
      invariant Children(tokens) == After(children, Children(remaining))
      decreases |remaining|
    {
      var first := remaining[0];
      if first.CloseTag? {
        assert children + [] == children;
        break;
      }
      if !first.OpenTag? {
        return Err(ExpectedOpenTag(Loc(first)));
      }
      var result := ParseTag(remaining[1..]);
      if result.Err? {
        return Err(result.error);
      }
      assert Children(remaining) == After([result.value.tag], Children(result.value.remaining));
      AfterAfter(children, [result.value.tag], Children(result.value.remaining));
      children := children + [result.value.tag];
      remaining := result.value.remaining;
    }
    assert children + [] == children;
    return Ok(children);
  }

  /** Collecting in two rounds is collecting once. */
  lemma AfterAfter(a: seq<ParsedTag>, b: seq<ParsedTag>, r: Result<seq<ParsedTag>>)
    ensures After(a, After(b, r)) == After(a + b, r)
  {
    if r.Ok? {
      assert a + (b + r.value) == a + b + r.value;
    }
  }
}
