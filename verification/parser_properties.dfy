/**
 * What the parser of src/parser.ts guarantees, proved about the model in
 * module Parser. The reference is a printer from trees back to tokens: the
 * property parser inverts it, the children parser inverts it on flat
 * documents, and, as written, rejects every document with a nested tag.
 */
module ParserProperties {
  import opened Types
  import opened Parser

  /** The location the printer gives every token; the parser only reports locations. */
  const Nowhere := Location(0, 0)

  /** A value token with the given text. */
  function Word(text: string): PropertyToken {
    Value(text, Nowhere, Some(Nowhere))
  }

  /** One property as tokens: `name` or `name = value`. */
  function PropToken(p: TagProperty): seq<PropertyToken> {
    match p.value
    case None => [Word(p.name)]
    case Some(v) => [Word(p.name), PropertyJoin("=", Nowhere), Word(v)]
  }

  /** A property list as tokens, in order. */
  function PropTokens(ps: seq<TagProperty>): seq<PropertyToken>
    decreases |ps|
  {
    if |ps| == 0 then [] else PropToken(ps[0]) + PropTokens(ps[1..])
  }

  /** A tag as tokens: `{ name props children }`. */
  function TagTokens(t: ParsedTag): seq<Token>
    decreases t, 1
  {
    [OpenTag(Nowhere), Word(t.tagName)] + PropTokens(t.tagProps) + TagsTokens(t.tagChildren) + [CloseTag(Nowhere)]
  }

  /** Sibling tags as tokens, in order. */
  function TagsTokens(ts: seq<ParsedTag>): seq<Token>
    decreases ts, 0
  {
    if |ts| == 0 then [] else TagTokens(ts[0]) + TagsTokens(ts[1..])
  }

  /** Every property has a non-empty name (an empty one is not truthy). */
  predicate Named(ps: seq<TagProperty>) {
    forall i :: 0 <= i < |ps| ==> ps[i].name != ""
  }

  /** A tag without children whose properties are all named. */
  predicate FlatTag(t: ParsedTag) {
    t.tagChildren == [] && Named(t.tagProps)
  }

  /** The number of `Value` tokens among `ts`. */
  function ValueCount(ts: seq<Token>): nat {
    if |ts| == 0 then 0 else (if ts[0].Value? then 1 else 0) + ValueCount(ts[1..])
  }

  /** The property a pending name stands for when the input ends. */
  function Pending(current: Option<string>): seq<TagProperty> {
    if Truthy(current) then [TagProperty(current.value, None)] else []
  }

  // ---------------------------------------------------------------------
  // parseProps
  // ---------------------------------------------------------------------

  /**
   * Reading printed properties from a state with no join pending gives the
   * accumulated properties, the pending name, then the printed ones.
   */
  lemma {:induction false} PropsFromPrinted(ps: seq<TagProperty>, current: Option<string>, acc: seq<TagProperty>)
    requires Named(ps)
    ensures PropsFrom(PropTokens(ps), current, false, acc) == Ok(acc + Pending(current) + ps)
    decreases |ps|
  {
    if |ps| == 0 {
      assert PropTokens(ps) == [];
      assert acc + Pending(current) + ps == acc + Pending(current);
      if !Truthy(current) {
        assert acc + Pending(current) == acc;
      }
    } else {
      var p, rest := ps[0], ps[1..];
      assert PropTokens(ps) == PropToken(p) + PropTokens(rest);
      assert Named(rest);
      var acc' := acc + Pending(current) + [p];
      PropsFromOne(p, PropTokens(rest), current, acc);
      if p.value.None? {
        PropsFromPrinted(rest, Some(p.name), acc + Pending(current));
        assert Pending(Some(p.name)) == [p];
      } else {
        PropsFromPrinted(rest, None, acc');
        assert acc' + Pending(None) == acc';
      }
      assert acc' + rest == acc + Pending(current) + ps;
    }
  }

  /**
   * Reading one printed property: a bare name becomes the pending name (the
   * previous one, if any, is emitted), a `name=value` is emitted whole.
   * `Pending` then accounts for the name still waiting.
   */
  lemma PropsFromOne(p: TagProperty, tail: seq<PropertyToken>, current: Option<string>, acc: seq<TagProperty>)
    requires p.name != ""
    ensures p.value.None? ==>
      PropsFrom(PropToken(p) + tail, current, false, acc) == PropsFrom(tail, Some(p.name), false, acc + Pending(current))
    ensures p.value.Some? ==>
      PropsFrom(PropToken(p) + tail, current, false, acc) == PropsFrom(tail, None, false, acc + Pending(current) + [p])
  {
    var acc' := acc + Pending(current);
    if !Truthy(current) {
      assert acc' == acc;
    }
    match p.value {
      case None =>
        var ts := [Word(p.name)] + tail;
        assert ts[0] == Word(p.name) && ts[1..] == tail;
      case Some(v) =>
        var ts := [Word(p.name), PropertyJoin("=", Nowhere), Word(v)] + tail;
        assert ts[0] == Word(p.name) && ts[1..][0] == PropertyJoin("=", Nowhere);
        assert ts[1..][1..][0] == Word(v) && ts[1..][1..][1..] == tail;
        assert PropsFrom(ts, current, false, acc) == PropsFrom(ts[1..], Some(p.name), false, acc');
        assert PropsFrom(ts[1..], Some(p.name), false, acc') == PropsFrom(ts[1..][1..], Some(p.name), true, acc');
    }
  }

  /** `parseProps` reads back every printed list of named properties. */
  lemma PropsRoundTrip(ps: seq<TagProperty>)
    requires Named(ps)
    ensures Props(PropTokens(ps)) == Ok(ps)
  {
    PropsFromPrinted(ps, None, []);
    assert [] + Pending(None) + ps == ps;
  }

  /** Every property `parseProps` returns has a non-empty name. */
  lemma {:induction false} PropsNamed(ts: seq<PropertyToken>, current: Option<string>, joint: bool, acc: seq<TagProperty>)
    requires Named(acc)
    ensures PropsFrom(ts, current, joint, acc).Ok? ==> Named(PropsFrom(ts, current, joint, acc).value)
    decreases |ts|
  {
    if |ts| > 0 {
      var token := ts[0];
      if token.Value? && Truthy(current) {
        if joint {
          PropsNamed(ts[1..], None, false, acc + [TagProperty(current.value, Some(token.content))]);
        } else {
          PropsNamed(ts[1..], Some(token.content), joint, acc + [TagProperty(current.value, None)]);
        }
      } else if token.Value? {
        PropsNamed(ts[1..], Some(token.content), false, acc);
      } else if Truthy(current) {
        PropsNamed(ts[1..], current, true, acc);
      }
    }
  }

  /** No property is made without a `Value` token naming it. */
  lemma {:induction false} PropsCount(ts: seq<PropertyToken>, current: Option<string>, joint: bool, acc: seq<TagProperty>)
    ensures PropsFrom(ts, current, joint, acc).Ok? ==>
      |PropsFrom(ts, current, joint, acc).value| <= |acc| + |Pending(current)| + ValueCount(ts)
    decreases |ts|
  {
    if |ts| > 0 {
      var token := ts[0];
      if token.Value? && Truthy(current) {
        if joint {
          PropsCount(ts[1..], None, false, acc + [TagProperty(current.value, Some(token.content))]);
        } else {
          PropsCount(ts[1..], Some(token.content), joint, acc + [TagProperty(current.value, None)]);
        }
      } else if token.Value? {
        PropsCount(ts[1..], Some(token.content), false, acc);
      } else if Truthy(current) {
        PropsCount(ts[1..], current, true, acc);
      }
    }
  }

  /** `parseProps` fails only on a `=` with no name before it, and reports that `=`. */
  lemma {:induction false} PropsErrorAtJoin(ts: seq<PropertyToken>, current: Option<string>, joint: bool, acc: seq<TagProperty>)
    ensures PropsFrom(ts, current, joint, acc).Err? ==>
      exists i :: 0 <= i < |ts| && ts[i].PropertyJoin?
               && PropsFrom(ts, current, joint, acc).error == DanglingPropertyJoin(ts[i].location)
    decreases |ts|
  {
    if |ts| > 0 {
      var token := ts[0];
      var r := PropsFrom(ts, current, joint, acc);
      if token.Value? && Truthy(current) {
        if joint {
          PropsErrorAtJoin(ts[1..], None, false, acc + [TagProperty(current.value, Some(token.content))]);
        } else {
          PropsErrorAtJoin(ts[1..], Some(token.content), joint, acc + [TagProperty(current.value, None)]);
        }
      } else if token.Value? {
        PropsErrorAtJoin(ts[1..], Some(token.content), false, acc);
      } else if Truthy(current) {
        PropsErrorAtJoin(ts[1..], current, true, acc);
      } else {
        assert r == Err(DanglingPropertyJoin(ts[0].location));
      }
      if r.Err? && !(!token.Value? && !Truthy(current)) {
        var i :| 0 <= i < |ts[1..]| && ts[1..][i].PropertyJoin? && r.error == DanglingPropertyJoin(ts[1..][i].location);
        assert ts[i + 1] == ts[1..][i];
      }
    }
  }

  /**
   * A `=` read with no pending name (none, or an empty one) fails with a
   * dangling join at that `=`, whatever follows and whatever was read before.
   */
  lemma JoinWithoutName(join: PropertyToken, rest: seq<PropertyToken>, current: Option<string>, joint: bool, acc: seq<TagProperty>)
    requires join.PropertyJoin? && !Truthy(current)
    ensures PropsFrom([join] + rest, current, joint, acc) == Err(DanglingPropertyJoin(join.location))
  {
    assert ([join] + rest)[0] == join;
  }

  /**
   * A tag whose property region `props` starts with `=` fails with a
   * dangling join at that `=`, whichever `{` or `}` ends the region.
   */
  lemma DanglingJoinInTag(tokens: seq<Token>, props: seq<PropertyToken>, delimiter: Token, rest: seq<Token>)
    requires |tokens| > 0 && tokens[0].Value? && IsTagToken(delimiter)
    requires |props| > 0 && props[0].PropertyJoin?
    requires tokens[1..] == props + [delimiter] + rest
    ensures ParseTag(tokens) == Err(DanglingPropertyJoin(props[0].location))
  {
    DelimiterSplit(tokens[1..], props, delimiter, rest);
    assert props == [props[0]] + props[1..];
    JoinWithoutName(props[0], props[1..], None, false, []);
  }

  /**
   * An empty name is not truthy: alone it is dropped, and before a `=` the
   * `=` is dangling.
   */
  lemma EmptyName(empty: PropertyToken, join: PropertyToken, rest: seq<PropertyToken>)
    requires empty.Value? && empty.content == ""
    requires join.PropertyJoin?
    ensures Props([empty]) == Ok([])
    ensures Props([empty, join] + rest) == Err(DanglingPropertyJoin(join.location))
  {
    var ts := [empty, join] + rest;
    assert ts[0] == empty && ts[1..] == [join] + rest;
    assert PropsFrom(ts, None, false, []) == PropsFrom(ts[1..], Some(""), false, []);
    JoinWithoutName(join, rest, Some(""), false, []);
    assert [empty][1..] == [];
    assert PropsFrom([empty], None, false, []) == PropsFrom([], Some(""), false, []);
  }

  /**
   * A `=` with nothing after it leaves its name pending, and a pending name
   * is emitted without a value even though the join is set.
   */
  lemma TrailingJoin(name: PropertyToken, join: PropertyToken)
    requires name.Value? && name.content != "" && join.PropertyJoin?
    ensures Props([name, join]) == Ok([TagProperty(name.content, None)])
  {
    var ts := [name, join];
    assert ts[1..] == [join] && [join][1..] == [];
    assert PropsFrom(ts, None, false, []) == PropsFrom([join], Some(name.content), false, []);
    assert PropsFrom([join], Some(name.content), false, []) == PropsFrom([], Some(name.content), true, []);
    assert [] + [TagProperty(name.content, None)] == [TagProperty(name.content, None)];
  }

  // ---------------------------------------------------------------------
  // parseTag and parseChildren
  // ---------------------------------------------------------------------

  /** Property tokens hold no `{` or `}`. */
  lemma {:induction false} PropTokensUntagged(ps: seq<TagProperty>)
    ensures forall i :: 0 <= i < |PropTokens(ps)| ==> !IsTagToken(PropTokens(ps)[i])
    decreases |ps|
  {
    if |ps| > 0 {
      PropTokensUntagged(ps[1..]);
    }
  }

  /** The first `{` or `}` after tokens that hold none is the one that follows them. */
  lemma DelimiterAfter(a: seq<Token>, delimiter: Token, rest: seq<Token>)
    requires forall i :: 0 <= i < |a| ==> !IsTagToken(a[i])
    requires IsTagToken(delimiter)
    ensures FindDelimiter(a + [delimiter] + rest) == |a|
  {
    var ts := a + [delimiter] + rest;
    assert ts[|a|] == delimiter;
    forall i | 0 <= i < |a| ensures !IsTagToken(ts[i]) {
      assert ts[i] == a[i];
    }
  }

  /** The first `{` or `}` after a run of property tokens is the one that ends it. */
  lemma DelimiterAfterProps(ps: seq<TagProperty>, delimiter: Token, rest: seq<Token>)
    requires IsTagToken(delimiter)
    ensures FindDelimiter(PropTokens(ps) + [delimiter] + rest) == |PropTokens(ps)|
  {
    PropTokensUntagged(ps);
    DelimiterAfter(PropTokens(ps), delimiter, rest);
  }

  /**
   * A name, then properties up to a `}`: `parseTag` reads a leaf with the
   * properties `parseProps` finds and leaves what follows the `}`.
   */
  lemma LeafTag(tokens: seq<Token>, props: seq<PropertyToken>, close: Token, rest: seq<Token>, tagProps: seq<TagProperty>)
    requires |tokens| > 0 && tokens[0].Value? && close.CloseTag?
    requires tokens[1..] == props + [close] + rest
    requires Props(props) == Ok(tagProps)
    ensures ParseTag(tokens) == Ok(TagResult(ParsedTag(tokens[0].content, tagProps, []), rest))
  {
    DelimiterSplit(tokens[1..], props, close, rest);
  }

  /** The first `{` or `}` after tag-free tokens `props`, and the slices around it. */
  lemma DelimiterSplit(next: seq<Token>, props: seq<PropertyToken>, delimiter: Token, rest: seq<Token>)
    requires next == props + [delimiter] + rest && IsTagToken(delimiter)
    ensures FindDelimiter(next) == |props| && next[|props|] == delimiter
    ensures next[..|props|] == props && next[|props|..] == [delimiter] + rest && next[|props| + 1..] == rest
  {
    forall i | 0 <= i < |props| ensures !IsTagToken(props[i]) {
    }
    DelimiterAfter(props, delimiter, rest);
  }

  /** A printed tag after its `{`: the name, the properties, the children, the `}`. */
  lemma TagBody(t: ParsedTag, rest: seq<Token>)
    ensures TagTokens(t)[1..] + rest
         == [Word(t.tagName)] + (PropTokens(t.tagProps) + (TagsTokens(t.tagChildren) + ([CloseTag(Nowhere)] + rest)))
  {
    DropOpen(OpenTag(Nowhere), Word(t.tagName), PropTokens(t.tagProps), TagsTokens(t.tagChildren), CloseTag(Nowhere), rest);
  }

  /** Regrouping `[o, n] + p + k + [c]` without its first token, followed by `rest`. */
  lemma DropOpen(o: Token, n: Token, p: seq<Token>, k: seq<Token>, c: Token, rest: seq<Token>)
    ensures ([o, n] + p + k + [c])[1..] + rest == [n] + (p + (k + ([c] + rest)))
  {
    assert ([o, n] + p + k + [c])[1..] == [n] + p + k + [c];
  }

  /** A printed flat tag parses back, leaving what follows it. */
  lemma ParseFlatTag(t: ParsedTag, rest: seq<Token>)
    requires FlatTag(t)
    ensures ParseTag(TagTokens(t)[1..] + rest) == Ok(TagResult(t, rest))
  {
    var props := PropTokens(t.tagProps);
    var close: Token := CloseTag(Nowhere);
    var tokens := TagTokens(t)[1..] + rest;
    TagBody(t, rest);
    assert TagsTokens(t.tagChildren) == [];
    assert tokens[1..] == props + [close] + rest;
    PropsRoundTrip(t.tagProps);
    LeafTag(tokens, props, close, rest, t.tagProps);
  }

  /**
   * `parseChildren` reads back printed flat siblings when they end the input
   * or are followed by a `}`, which it leaves in place.
   */
  lemma {:induction false} FlatRoundTrip(ts: seq<ParsedTag>, rest: seq<Token>)
    requires forall i :: 0 <= i < |ts| ==> FlatTag(ts[i])
    requires rest == [] || rest[0].CloseTag?
    ensures Children(TagsTokens(ts) + rest) == Ok(ts)
    decreases |ts|
  {
    if |ts| == 0 {
      assert TagsTokens(ts) + rest == rest;
    } else {
      assert [ts[0]] + ts[1..] == ts;
      var tail := TagsTokens(ts[1..]) + rest;
      var tokens := TagsTokens(ts) + rest;
      assert tokens[0] == OpenTag(Nowhere) && ParseTag(tokens[1..]) == Ok(TagResult(ts[0], tail)) by {
        PrintedSiblings(ts, rest);
        ParseFlatTag(ts[0], tail);
      }
      assert Children(tail) == Ok(ts[1..]) by {
        FlatRoundTrip(ts[1..], rest);
      }
      ChildrenCons(tokens, ts[0], tail, ts[1..]);
    }
  }

  /** Printed siblings start with the first one's `{`, then its body, then the rest. */
  lemma PrintedSiblings(ts: seq<ParsedTag>, rest: seq<Token>)
    requires |ts| > 0
    ensures var tokens := TagsTokens(ts) + rest;
      |tokens| > 0 && tokens[0] == OpenTag(Nowhere) && tokens[1..] == TagTokens(ts[0])[1..] + (TagsTokens(ts[1..]) + rest)
  {
    var first := TagTokens(ts[0]);
    assert TagsTokens(ts) + rest == first + (TagsTokens(ts[1..]) + rest);
    assert first[0] == OpenTag(Nowhere);
  }

  /** One turn of the `parseChildren` loop: a tag, then its siblings. */
  lemma ChildrenCons(tokens: seq<Token>, tag: ParsedTag, tail: seq<Token>, siblings: seq<ParsedTag>)
    requires |tokens| > 0 && tokens[0].OpenTag?
    requires ParseTag(tokens[1..]) == Ok(TagResult(tag, tail))
    requires Children(tail) == Ok(siblings)
    ensures Children(tokens) == Ok([tag] + siblings)
  {
  }

  /**
   * As written, a printed tag with a child is never accepted: its remainder
   * restarts at the child's name, so either an error is raised or the
   * parent would come back with children, which `parseChildren` never
   * returns.
   */
  lemma NestedTagRejected(t: ParsedTag, rest: seq<Token>)
    requires t.tagChildren != []
    ensures Children(TagTokens(t) + rest).Err?
  {
    var tokens := TagTokens(t) + rest;
    PrintedParentDelimiter(t, rest);
    ChildrenIffOpenDelimiter(tokens[1..]);
    ChildrenHead(tokens);
    ChildrenFlat(tokens);
  }

  /** In a printed tag with children, the properties end at the first child's `{`. */
  lemma PrintedParentDelimiter(t: ParsedTag, rest: seq<Token>)
    requires t.tagChildren != []
    ensures var tokens := TagTokens(t) + rest;
      && |tokens| > 1 && tokens[0].OpenTag? && tokens[1].Value?
      && 0 <= FindDelimiter(tokens[1..][1..]) && tokens[1..][1..][FindDelimiter(tokens[1..][1..])].OpenTag?
  {
    var tail := TagsTokens(t.tagChildren) + [CloseTag(Nowhere)] + rest;
    assert TagTokens(t) + rest == [OpenTag(Nowhere), Word(t.tagName)] + PropTokens(t.tagProps) + tail;
    PrintedSiblingsStart(t.tagChildren);
    PropTokensUntagged(t.tagProps);
    OpenAfterProperties([OpenTag(Nowhere), Word(t.tagName)], PropTokens(t.tagProps), tail);
  }

  /** Tokens `{ name props` followed by a `{`: the properties end at that `{`. */
  lemma OpenAfterProperties(head: seq<Token>, props: seq<Token>, tail: seq<Token>)
    requires |head| == 2 && head[0].OpenTag? && head[1].Value?
    requires forall i :: 0 <= i < |props| ==> !IsTagToken(props[i])
    requires |tail| > 0 && tail[0].OpenTag?
    ensures var tokens := head + props + tail;
      && |tokens| > 1 && tokens[0].OpenTag? && tokens[1].Value?
      && 0 <= FindDelimiter(tokens[1..][1..]) && tokens[1..][1..][FindDelimiter(tokens[1..][1..])].OpenTag?
  {
    var tokens := head + props + tail;
    assert tokens[1..][1..] == props + [tail[0]] + tail[1..];
    DelimiterAfter(props, tail[0], tail[1..]);
  }

  /** Printed siblings, if any, start with a `{`. */
  lemma PrintedSiblingsStart(ts: seq<ParsedTag>)
    requires ts != []
    ensures |TagsTokens(ts)| > 0 && TagsTokens(ts)[0] == OpenTag(Nowhere)
  {
    assert TagsTokens(ts) == TagTokens(ts[0]) + TagsTokens(ts[1..]);
    assert TagTokens(ts[0])[0] == OpenTag(Nowhere);
  }

  /**
   * A tag `parseTag` accepts has children exactly when its properties end at
   * a `{` rather than a `}`.
   */
  lemma ChildrenIffOpenDelimiter(tokens: seq<Token>)
    ensures ParseTag(tokens).Ok? ==>
      var k := FindDelimiter(tokens[1..]);
      0 <= k && (tokens[1..][k].OpenTag? <==> ParseTag(tokens).value.tag.tagChildren != [])
  {
    if ParseTag(tokens).Ok? {
      var k := FindDelimiter(tokens[1..]);
      var inner := tokens[1..][k..];
      if inner[0].OpenTag? {
        assert Children(inner).value[0] == ParseTag(inner[1..]).value.tag;
      }
    }
  }

  /** When the loop succeeds from a `{`, the first tag it parses heads its result. */
  lemma ChildrenHead(tokens: seq<Token>)
    requires |tokens| > 0 && tokens[0].OpenTag?
    ensures Children(tokens).Ok? ==>
      ParseTag(tokens[1..]).Ok? && |Children(tokens).value| > 0 && Children(tokens).value[0] == ParseTag(tokens[1..]).value.tag
  {
  }

  /**
   * `locString`: a stray token where a `{` is expected is reported at its
   * location, the start for a `Value`.
   */
  lemma ExpectedOpenTagLocation(ts: seq<Token>)
    requires |ts| > 0 && !IsTagToken(ts[0])
    ensures Children(ts) == Err(ExpectedOpenTag(if ts[0].Value? then ts[0].start else ts[0].location))
  {
  }

  /**
   * A name followed by tokens none of which is a `{` or `}` is an
   * unterminated tag, reported at the name.
   */
  lemma UnterminatedTagReported(name: Token, rest: seq<Token>)
    requires name.Value?
    requires forall i :: 0 <= i < |rest| ==> !IsTagToken(rest[i])
    ensures ParseTag([name] + rest) == Err(UnterminatedTag(name.start))
  {
    assert ([name] + rest)[1..] == rest;
  }

  /** In particular, printed properties with no `{` or `}` after them. */
  lemma PrintedPropertiesUnterminated(name: Token, ps: seq<TagProperty>)
    requires name.Value?
    ensures ParseTag([name] + PropTokens(ps)) == Err(UnterminatedTag(name.start))
  {
    PropTokensUntagged(ps);
    UnterminatedTagReported(name, PropTokens(ps));
  }
}
