/**
 * Small documents through the two stages src/main.ts chains together,
 * `tokenize` and then `parseChildren`. Locations are kept symbolic (any
 * line, any column) so that each scenario holds wherever the text appears.
 */
module Examples {
  import opened Types
  import opened Lexer
  import opened LexerProperties
  import opened Parser
  import opened ParserProperties
  import opened CorrectedParser

  /** The document `{w1 w2=w3}` opening the text. */
  function Delimited(w1: string, w2: string, w3: string): string {
    [OPEN_TAG] + w1 + [SPACE] + w2 + [EQ] + w3 + [CLOSE_TAG]
  }

  /** Its tokens: the `{` on line -1, three values each ending on its last character, the `=` and the `}`. */
  function DelimitedTokens(w1: string, w2: string, w3: string): seq<Token> {
    var c2 := |w1| + 1;
    var c3 := c2 + |w2| + 1;
    [OpenTag(Location(-1, -1)),
     Value(w1, Location(-1, 0), Some(Location(-1, |w1| - 1))),
     Value(w2, Location(-1, c2), Some(Location(-1, c2 + |w2| - 1))),
     PropertyJoin("=", Location(-1, c2 + |w2|)),
     Value(w3, Location(-1, c3), Some(Location(-1, c3 + |w3| - 1))),
     CloseTag(Location(-1, c3 + |w3|))]
  }

  /**
   * `{w1 w2=w3}` tokenizes to the `{`, the three words and the `=` and `}`
   * between and after them: `w2` is ended by the `=` and `w3` by the `}`,
   * with no blank between.
   */
  lemma DelimitedTokenization(w1: string, w2: string, w3: string)
    requires BareWord(w1) && BareWord(w2) && BareWord(w3)
    requires NoCarriageReturn(w1) && NoCarriageReturn(w2) && NoCarriageReturn(w3)
    ensures Tokenization(Delimited(w1, w2, w3)) == Ok(DelimitedTokens(w1, w2, w3))
  {
    var input := Delimited(w1, w2, w3);
    var afterFirst := w2 + [EQ] + (w3 + [CLOSE_TAG] + "");
    assert input == [OPEN_TAG] + (w1 + [SPACE] + afterFirst);
    assert NoCarriageReturn(input) by {
      assert CARRIAGE_RETURN !in w1 && CARRIAGE_RETURN !in w2 && CARRIAGE_RETURN !in w3;
      assert CARRIAGE_RETURN !in input;
    }
    assert Tokenization(input) == Emitted(Run(DocumentStart, w1 + [SPACE] + afterFirst)) by {
      LeadingOpenTag(input);
      NormalizeIdentity(input);
      assert input[1..] == w1 + [SPACE] + afterFirst;
    }
    DelimitedScan(w1, w2, w3);
  }

  /** The scanning loop over `w1 w2=w3}` right after the opening `{`. */
  lemma DelimitedScan(w1: string, w2: string, w3: string)
    requires BareWord(w1) && BareWord(w2) && BareWord(w3)
    ensures Run(DocumentStart, w1 + [SPACE] + (w2 + [EQ] + (w3 + [CLOSE_TAG] + "")))
         == Ok(Lexer(TokenStart, -1, |w1| + |w2| + |w3| + 3, Value(w3, Location(-1, |w1| + |w2| + 2), None),
                     DelimitedTokens(w1, w2, w3)))
  {
    var ts := DelimitedTokens(w1, w2, w3);
    FirstWordScan(w1, w2 + [EQ] + (w3 + [CLOSE_TAG] + ""));
    SecondWordScan(w1, w2, w3 + [CLOSE_TAG] + "");
    ThirdWordScan(w1, w2, w3, "");
    var last := Lexer(TokenStart, -1, |w1| + |w2| + |w3| + 3, Value(w3, Location(-1, |w1| + |w2| + 2), None), ts);
    assert Run(last, "") == Ok(last);
    assert [ts[0], ts[1]] + [ts[2], ts[3]] + [ts[4], ts[5]] == ts;
  }

  /** `w1` and a space after the opening `{`: the first value is emitted. */
  lemma FirstWordScan(w1: string, rest: string)
    requires BareWord(w1)
    ensures Run(DocumentStart, w1 + [SPACE] + rest)
         == Run(Lexer(TokenStart, -1, |w1| + 1, Value(w1, Location(-1, 0), None),
                      [OpenTag(Location(-1, -1)), Value(w1, Location(-1, 0), Some(Location(-1, |w1| - 1)))]),
                rest)
  {
    var v1 := Value(w1, Location(-1, 0), Some(Location(-1, |w1| - 1)));
    BareWordThenSpace(DocumentStart, w1, rest);
    assert DocumentStart.tokens + [v1] == [OpenTag(Location(-1, -1)), v1];
  }

  /** Then `w2=`: the second value and the join are emitted. */
  lemma SecondWordScan(w1: string, w2: string, rest: string)
    requires BareWord(w2)
    ensures var c2 := |w1| + 1;
      Run(Lexer(TokenStart, -1, c2, Value(w1, Location(-1, 0), None),
                [OpenTag(Location(-1, -1)), Value(w1, Location(-1, 0), Some(Location(-1, |w1| - 1)))]),
          w2 + [EQ] + rest)
      == Run(Lexer(TokenStart, -1, c2 + |w2| + 1, Value(w2, Location(-1, c2), None),
                   [OpenTag(Location(-1, -1)), Value(w1, Location(-1, 0), Some(Location(-1, |w1| - 1)))]
                   + [Value(w2, Location(-1, c2), Some(Location(-1, c2 + |w2| - 1))), PropertyJoin("=", Location(-1, c2 + |w2|))]),
             rest)
  {
    var c2 := |w1| + 1;
    var s1 := Lexer(TokenStart, -1, c2, Value(w1, Location(-1, 0), None),
                    [OpenTag(Location(-1, -1)), Value(w1, Location(-1, 0), Some(Location(-1, |w1| - 1)))]);
    BareWordThenDelimiter(s1, w2, EQ, rest);
    assert TokenizeStart(EQ, c2 + |w2|, -1).token == PropertyJoin("=", Location(-1, c2 + |w2|));
  }

  /** Then `w3}`: the third value and the `}` are emitted. */
  lemma ThirdWordScan(w1: string, w2: string, w3: string, rest: string)
    requires BareWord(w3)
    ensures var c2 := |w1| + 1;
      var c3 := c2 + |w2| + 1;
      var before := [OpenTag(Location(-1, -1)), Value(w1, Location(-1, 0), Some(Location(-1, |w1| - 1)))]
                    + [Value(w2, Location(-1, c2), Some(Location(-1, c2 + |w2| - 1))), PropertyJoin("=", Location(-1, c2 + |w2|))];
      Run(Lexer(TokenStart, -1, c3, Value(w2, Location(-1, c2), None), before), w3 + [CLOSE_TAG] + rest)
      == Run(Lexer(TokenStart, -1, c3 + |w3| + 1, Value(w3, Location(-1, c3), None),
                   before + [Value(w3, Location(-1, c3), Some(Location(-1, c3 + |w3| - 1))), CloseTag(Location(-1, c3 + |w3|))]),
             rest)
  {
    var c2 := |w1| + 1;
    var c3 := c2 + |w2| + 1;
    var before := [OpenTag(Location(-1, -1)), Value(w1, Location(-1, 0), Some(Location(-1, |w1| - 1)))]
                  + [Value(w2, Location(-1, c2), Some(Location(-1, c2 + |w2| - 1))), PropertyJoin("=", Location(-1, c2 + |w2|))];
    var s2 := Lexer(TokenStart, -1, c3, Value(w2, Location(-1, c2), None), before);
    BareWordThenDelimiter(s2, w3, CLOSE_TAG, rest);
    assert TokenizeStart(CLOSE_TAG, c3 + |w3|, -1).token == CloseTag(Location(-1, c3 + |w3|));
  }

  /** `{w1 w2=w3}` parses to the one tag it spells. */
  lemma DelimitedParse(w1: string, w2: string, w3: string)
    requires w2 != ""
    ensures Children(DelimitedTokens(w1, w2, w3)) == Ok([ParsedTag(w1, [TagProperty(w2, Some(w3))], [])])
  {
    var ts := DelimitedTokens(w1, w2, w3);
    var props: seq<PropertyToken> := [ts[2], ts[3], ts[4]];
    assert ts == [ts[0], ts[1]] + props + [ts[5]];
    JoinedProperty(ts[2], ts[3], ts[4]);
    SingleLeafDocument(ts[0], ts[1], props, ts[5], [TagProperty(w2, Some(w3))]);
  }

  /**
   * `{tag prop=val}` read by the two stages src/main.ts chains: the tokens,
   * then the one tag `tag` with the property `prop=val`.
   */
  lemma TagPropVal()
    ensures Tokenization("{tag prop=val}") == Ok(DelimitedTokens("tag", "prop", "val"))
    ensures Children(DelimitedTokens("tag", "prop", "val")) == Ok([ParsedTag("tag", [TagProperty("prop", Some("val"))], [])])
  {
    assert "{tag prop=val}" == Delimited("tag", "prop", "val");
    assert BareWord("tag") && BareWord("prop") && BareWord("val");
    assert NoCarriageReturn("tag") && NoCarriageReturn("prop") && NoCarriageReturn("val");
    DelimitedTokenization("tag", "prop", "val");
    DelimitedParse("tag", "prop", "val");
  }

  /** A name, a `=` and a value read as one property, whatever the locations. */
  lemma JoinedProperty(name: PropertyToken, join: PropertyToken, value: PropertyToken)
    requires name.Value? && name.content != "" && join.PropertyJoin? && value.Value?
    ensures Props([name, join, value]) == Ok([TagProperty(name.content, Some(value.content))])
  {
    var ts := [name, join, value];
    assert ts[1..] == [join, value] && ts[1..][1..] == [value] && ts[1..][1..][1..] == [];
    var prop := [TagProperty(name.content, Some(value.content))];
    assert [] + prop == prop;
    assert PropsFrom(ts, None, false, []) == PropsFrom(ts[1..], Some(name.content), false, []);
    assert PropsFrom(ts[1..], Some(name.content), false, []) == PropsFrom(ts[1..][1..], Some(name.content), true, []);
    assert PropsFrom(ts[1..][1..], Some(name.content), true, []) == PropsFrom([], None, false, prop);
  }

  /** A document holding one leaf tag `{name props}` parses to that tag. */
  lemma SingleLeafDocument(open: Token, name: Token, props: seq<PropertyToken>, close: Token, tagProps: seq<TagProperty>)
    requires open.OpenTag? && name.Value? && close.CloseTag?
    requires Props(props) == Ok(tagProps)
    ensures Children([open, name] + props + [close]) == Ok([ParsedTag(name.content, tagProps, [])])
  {
    var tokens := [open, name] + props + [close];
    var body := tokens[1..];
    assert body == [name] + props + [close] && body[0] == name && body[1..] == props + [close] + [];
    LeafTag(body, props, close, [], tagProps);
    assert Children([]) == Ok([]);
    ChildrenCons(tokens, ParsedTag(name.content, tagProps, []), [], []);
    assert [ParsedTag(name.content, tagProps, [])] + [] == [ParsedTag(name.content, tagProps, [])];
  }

  /**
   * `"a\"b"` between tokens: one value, `a"b`, the escaped quote kept
   * verbatim; it starts at the opening quote and ends one column before the
   * closing one.
   */
  lemma QuotedEscapeScan(line: int, col: int, v: ValueToken, tokens: seq<Token>)
    ensures Run(Lexer(TokenStart, line, col, v, tokens), "\"a\\\"b\"")
         == Ok(Lexer(TokenStart, line, col + 6, Value("a\"b", Location(line, col), None),
                     tokens + [Value("a\"b", Location(line, col), Some(Location(line, col + 4)))]))
  {
    assert "\"a\\\"b\"" == "\"a\\" + "\"b\"";
    QuotedOpening(line, col, v, tokens, "\"b\"");
    QuotedClosing(line, col, tokens);
  }

  /** `"b"` right after the `\` of `"a\`: the escaped quote, `b`, and the closing quote. */
  lemma QuotedClosing(line: int, col: int, tokens: seq<Token>)
    ensures Run(Lexer(ValueStringEscapeContent, line, col + 3, Value("a", Location(line, col), None), tokens), "\"b\"")
         == Ok(Lexer(TokenStart, line, col + 6, Value("a\"b", Location(line, col), None),
                     tokens + [Value("a\"b", Location(line, col), Some(Location(line, col + 4)))]))
  {
    var s3 := Lexer(ValueStringEscapeContent, line, col + 3, Value("a", Location(line, col), None), tokens);
    assert "\"b\"" == [QUOTE] + "b" + [QUOTE];
    EscapedThenClosed(s3, QUOTE, "b");
    assert "a" + [QUOTE] + "b" == "a\"b";
  }

  /**
   * What never closes a quoted value: `a\"b` (the `"` is escaped) and `abc\`
   * (the input ends after the `\`); `a"b` does close it.
   */
  lemma UnclosedQuotedTexts()
    ensures Unclosed("a\\\"b", false) && Unclosed("abc\\", false)
    ensures !Unclosed("a\"b", false)
  {
  }

  /** `"a\` between tokens: an open quoted value `a`, waiting for the escaped character. */
  lemma QuotedOpening(line: int, col: int, v: ValueToken, tokens: seq<Token>, rest: string)
    ensures Run(Lexer(TokenStart, line, col, v, tokens), "\"a\\" + rest)
         == Run(Lexer(ValueStringEscapeContent, line, col + 3, Value("a", Location(line, col), None), tokens), rest)
  {
    var start := Location(line, col);
    var s0 := Lexer(TokenStart, line, col, v, tokens);
    var s1 := Lexer(ValueStringContent, line, col + 1, Value("", start, None), tokens);
    var s2 := Lexer(ValueStringContent, line, col + 2, Value("a", start, None), tokens);
    var s3 := Lexer(ValueStringEscapeContent, line, col + 3, Value("a", start, None), tokens);
    assert "\"a\\" + rest == [QUOTE] + (['a'] + ([ESCAPE] + rest));
    assert Step(s0, QUOTE) == Ok(s1);
    RunCons(s0, QUOTE, ['a'] + ([ESCAPE] + rest), s1);
    assert Step(s1, 'a') == Ok(s2) by {
      assert "" + ['a'] == "a";
    }
    RunCons(s1, 'a', [ESCAPE] + rest, s2);
    StepEscapeInQuotes(s2);
    RunCons(s2, ESCAPE, rest, s3);
  }

  /** `{a =x}`: the `=` follows a space, not a name, and is reported where it stands. */
  lemma DanglingJoin(l0: Location, l1: Location, e1: Location, l2: Location, l3: Location, e3: Location, l4: Location)
    ensures Children([OpenTag(l0), Value("a", l1, Some(e1)), PropertyJoin("=", l2), Value("x", l3, Some(e3)), CloseTag(l4)])
         == Err(DanglingPropertyJoin(l2))
  {
    var tokens := [OpenTag(l0), Value("a", l1, Some(e1)), PropertyJoin("=", l2), Value("x", l3, Some(e3)), CloseTag(l4)];
    var props: seq<PropertyToken> := [PropertyJoin("=", l2), Value("x", l3, Some(e3))];
    assert tokens[1..][1..] == props + [CloseTag(l4)] + [];
    DanglingJoinInTag(tokens[1..], props, CloseTag(l4), []);
  }

  /** The tokens of `{b} {c x=1}}`, the children of `a` in the nested document and its `}`. */
  function NestedChildren(o1: Location, b: Location, c1: Location,
                          o2: Location, c: Location, x: Location, eq: Location, one: Location,
                          c2: Location, c3: Location): seq<Token>
  {
    [OpenTag(o1), Value("b", b, Some(b)), CloseTag(c1),
     OpenTag(o2), Value("c", c, Some(c)), Value("x", x, Some(x)), PropertyJoin("=", eq), Value("1", one, Some(one)), CloseTag(c2),
     CloseTag(c3)]
  }

  /** The tokens of `{a {b} {c x=1}}`, at the given locations. */
  function NestedDocument(o0: Location, a: Location, o1: Location, b: Location, c1: Location,
                          o2: Location, c: Location, x: Location, eq: Location, one: Location,
                          c2: Location, c3: Location): seq<Token>
  {
    [OpenTag(o0), Value("a", a, Some(a))] + NestedChildren(o1, b, c1, o2, c, x, eq, one, c2, c3)
  }

  /** The tag `c x=1` of the nested document. */
  const TagC := ParsedTag("c", [TagProperty("x", Some("1"))], [])

  /** The tag `b` of the nested document. */
  const TagB := ParsedTag("b", [], [])

  /** A tag body with no properties whose first child follows its name. */
  lemma ParentTag(tokens: seq<Token>)
    requires |tokens| > 1 && tokens[0].Value? && tokens[1].OpenTag?
    ensures Children(tokens[1..]).Ok? ==>
      ParseTag(tokens) == Ok(TagResult(ParsedTag(tokens[0].content, [], Children(tokens[1..]).value), tokens[2..]))
    ensures ChildrenFixed(tokens[1..]).Ok? && ChildrenFixed(tokens[1..]).value.remaining != [] ==>
      TagFixed(tokens) == Ok(TagResult(ParsedTag(tokens[0].content, [], ChildrenFixed(tokens[1..]).value.tags),
                                       ChildrenFixed(tokens[1..]).value.remaining[1..]))
  {
    assert tokens[1..] == [] + [tokens[1]] + tokens[2..];
    DelimiterAfter([], tokens[1], tokens[2..]);
    assert tokens[1..][0..] == tokens[1..] && tokens[1..][1..] == tokens[2..];
  }

  /** `{b} {c x=1}` as written: two leaves up to the final `}`. */
  lemma NestedSiblings(o1: Location, b: Location, c1: Location,
                       o2: Location, c: Location, x: Location, eq: Location, one: Location,
                       c2: Location, c3: Location)
    ensures Children(NestedChildren(o1, b, c1, o2, c, x, eq, one, c2, c3)) == Ok([TagB, TagC])
  {
    var cProps: seq<PropertyToken> := [Value("x", x, Some(x)), PropertyJoin("=", eq), Value("1", one, Some(one))];
    var tail := [CloseTag(c3)];
    assert NestedChildren(o1, b, c1, o2, c, x, eq, one, c2, c3)
        == [OpenTag(o1), Value("b", b, Some(b)), CloseTag(c1), OpenTag(o2), Value("c", c, Some(c))] + cProps + [CloseTag(c2)] + tail;
    JoinedProperty(Value("x", x, Some(x)), PropertyJoin("=", eq), Value("1", one, Some(one)));
    assert Children(tail) == Ok([]);
    TwoLeaves(OpenTag(o1), Value("b", b, Some(b)), CloseTag(c1), OpenTag(o2), Value("c", c, Some(c)), cProps, CloseTag(c2), tail, TagC.tagProps);
  }

  /** `{b} {c x=1}` corrected: two leaves, and the final `}` left over. */
  lemma NestedSiblingsFixed(o1: Location, b: Location, c1: Location,
                            o2: Location, c: Location, x: Location, eq: Location, one: Location,
                            c2: Location, c3: Location)
    ensures ChildrenFixed(NestedChildren(o1, b, c1, o2, c, x, eq, one, c2, c3)) == Ok(Siblings([TagB, TagC], [CloseTag(c3)]))
  {
    var cProps: seq<PropertyToken> := [Value("x", x, Some(x)), PropertyJoin("=", eq), Value("1", one, Some(one))];
    var tail := [CloseTag(c3)];
    assert NestedChildren(o1, b, c1, o2, c, x, eq, one, c2, c3)
        == [OpenTag(o1), Value("b", b, Some(b)), CloseTag(c1), OpenTag(o2), Value("c", c, Some(c))] + cProps + [CloseTag(c2)] + tail;
    JoinedProperty(Value("x", x, Some(x)), PropertyJoin("=", eq), Value("1", one, Some(one)));
    assert ChildrenFixed(tail) == Ok(Siblings([], tail));
    TwoLeavesFixed(OpenTag(o1), Value("b", b, Some(b)), CloseTag(c1), OpenTag(o2), Value("c", c, Some(c)), cProps, CloseTag(c2), tail, TagC.tagProps);
  }

  /** `{b} {c props}` then `tail`, regrouped the way the parsers take it apart. */
  lemma TwoLeavesLayout(o1: Token, nb: Token, c1: Token, o2: Token, nc: Token, cProps: seq<Token>, c2: Token, tail: seq<Token>)
    ensures var listC := [o2, nc] + cProps + [c2] + tail;
            var listB := [o1, nb, c1] + listC;
            && [o1, nb, c1, o2, nc] + cProps + [c2] + tail == listB
            && listB[0] == o1 && listB[1..][0] == nb && listB[1..][1..] == [] + [c1] + listC
            && listC[0] == o2 && listC[1..][0] == nc && listC[1..][1..] == cProps + [c2] + tail
  {
    var listC := [o2, nc] + cProps + [c2] + tail;
    assert [o1, nb, c1, o2, nc] + cProps + [c2] + tail == [o1, nb, c1] + listC;
    assert ([o1, nb, c1] + listC)[1..][1..] == [c1] + listC;
    assert listC[1..][1..] == cProps + [c2] + tail;
  }

  /** Two leaves `{b} {c props}` before a `tail` where the loop stops, as written. */
  lemma TwoLeaves(o1: Token, nb: Token, c1: Token, o2: Token, nc: Token, cProps: seq<PropertyToken>, c2: Token,
                  tail: seq<Token>, propsC: seq<TagProperty>)
    requires o1.OpenTag? && o2.OpenTag? && nb.Value? && nc.Value? && c1.CloseTag? && c2.CloseTag?
    requires Props(cProps) == Ok(propsC) && Children(tail) == Ok([])
    ensures Children([o1, nb, c1, o2, nc] + cProps + [c2] + tail)
         == Ok([ParsedTag(nb.content, [], []), ParsedTag(nc.content, propsC, [])])
  {
    var listC := [o2, nc] + cProps + [c2] + tail;
    var listB := [o1, nb, c1] + listC;
    TwoLeavesLayout(o1, nb, c1, o2, nc, cProps, c2, tail);
    LeafTag(listC[1..], cProps, c2, tail, propsC);
    assert Props([]) == Ok([]);
    LeafTag(listB[1..], [], c1, listC, []);
    TwoSiblings(listB, ParsedTag(nb.content, [], []), listC, ParsedTag(nc.content, propsC, []), tail);
  }

  /** Two leaves `{b} {c props}` before a `tail` where the loop stops, corrected. */
  lemma TwoLeavesFixed(o1: Token, nb: Token, c1: Token, o2: Token, nc: Token, cProps: seq<PropertyToken>, c2: Token,
                       tail: seq<Token>, propsC: seq<TagProperty>)
    requires o1.OpenTag? && o2.OpenTag? && nb.Value? && nc.Value? && c1.CloseTag? && c2.CloseTag?
    requires Props(cProps) == Ok(propsC) && ChildrenFixed(tail) == Ok(Siblings([], tail))
    ensures ChildrenFixed([o1, nb, c1, o2, nc] + cProps + [c2] + tail)
         == Ok(Siblings([ParsedTag(nb.content, [], []), ParsedTag(nc.content, propsC, [])], tail))
  {
    var listC := [o2, nc] + cProps + [c2] + tail;
    var listB := [o1, nb, c1] + listC;
    TwoLeavesLayout(o1, nb, c1, o2, nc, cProps, c2, tail);
    LeafTagFixed(listC[1..], cProps, c2, tail, propsC);
    assert Props([]) == Ok([]);
    LeafTagFixed(listB[1..], [], c1, listC, []);
    TwoSiblingsFixed(listB, ParsedTag(nb.content, [], []), listC, ParsedTag(nc.content, propsC, []), tail);
  }

  /** Two sibling tags read one after the other, up to the end or a `}`, as written. */
  lemma TwoSiblings(tokens: seq<Token>, first: ParsedTag, between: seq<Token>, second: ParsedTag, tail: seq<Token>)
    requires |tokens| > 0 && tokens[0].OpenTag? && |between| > 0 && between[0].OpenTag?
    requires ParseTag(tokens[1..]) == Ok(TagResult(first, between)) && ParseTag(between[1..]) == Ok(TagResult(second, tail))
    requires Children(tail) == Ok([])
    ensures Children(tokens) == Ok([first, second])
  {
    assert [first] + [second] == [first, second];
    assert Children(between) == Ok([second]) by {
      ChildrenCons(between, second, tail, []);
      assert [second] + [] == [second];
    }
    assert Children(tokens) == Ok([first] + [second]) by {
      ChildrenCons(tokens, first, between, [second]);
    }
  }

  /** Two sibling tags read one after the other, up to the end or a `}`, corrected. */
  lemma TwoSiblingsFixed(tokens: seq<Token>, first: ParsedTag, between: seq<Token>, second: ParsedTag, tail: seq<Token>)
    requires |tokens| > 0 && tokens[0].OpenTag? && |between| > 0 && between[0].OpenTag?
    requires TagFixed(tokens[1..]) == Ok(TagResult(first, between)) && TagFixed(between[1..]) == Ok(TagResult(second, tail))
    requires ChildrenFixed(tail) == Ok(Siblings([], tail))
    ensures ChildrenFixed(tokens) == Ok(Siblings([first, second], tail))
  {
    assert [first] + [second] == [first, second];
    assert ChildrenFixed(between) == Ok(Siblings([second], tail)) by {
      SiblingsCons(between, second, tail, Siblings([], tail));
      assert [second] + [] == [second];
    }
    assert ChildrenFixed(tokens) == Ok(Siblings([first] + [second], tail)) by {
      SiblingsCons(tokens, first, between, Siblings([second], tail));
    }
  }

  /**
   * As written, `{a {b} {c x=1}}` is rejected: after parsing `a` with its
   * children, the loop resumes at `b` and reports a missing `{` there.
   */
  lemma NestedAsWritten(o0: Location, a: Location, o1: Location, b: Location, c1: Location,
                        o2: Location, c: Location, x: Location, eq: Location, one: Location,
                        c2: Location, c3: Location)
    ensures Children(NestedDocument(o0, a, o1, b, c1, o2, c, x, eq, one, c2, c3)) == Err(ExpectedOpenTag(b))
  {
    assert NestedDocument(o0, a, o1, b, c1, o2, c, x, eq, one, c2, c3)
        == [OpenTag(o0), Value("a", a, Some(a))] + NestedChildren(o1, b, c1, o2, c, x, eq, one, c2, c3);
    NestedSiblings(o1, b, c1, o2, c, x, eq, one, c2, c3);
    ParentDocument(OpenTag(o0), Value("a", a, Some(a)), NestedChildren(o1, b, c1, o2, c, x, eq, one, c2, c3), [TagB, TagC]);
  }

  /**
   * A document `{name` + children with no properties, as written: the loop
   * resumes at the first child's name and reports a missing `{` there.
   */
  lemma ParentDocument(open: Token, name: Token, kids: seq<Token>, tags: seq<ParsedTag>)
    requires open.OpenTag? && name.Value? && |kids| > 1 && kids[0].OpenTag? && kids[1].Value?
    requires Children(kids) == Ok(tags)
    ensures Children([open, name] + kids) == Err(ExpectedOpenTag(kids[1].start))
  {
    var body := [name] + kids;
    var doc := [open, name] + kids;
    assert doc[0] == open && doc[1..] == body;
    assert body[0] == name && body[1] == kids[0] && body[1..] == kids && body[2..] == kids[1..];
    ParentTag(body);
    assert Children(kids[1..]) == Err(ExpectedOpenTag(kids[1].start)) by {
      assert kids[1..][0] == kids[1];
    }
  }

  /** Corrected, `{a {b} {c x=1}}` is the tree it spells, with nothing left over. */
  lemma NestedCorrected(o0: Location, a: Location, o1: Location, b: Location, c1: Location,
                        o2: Location, c: Location, x: Location, eq: Location, one: Location,
                        c2: Location, c3: Location)
    ensures ChildrenFixed(NestedDocument(o0, a, o1, b, c1, o2, c, x, eq, one, c2, c3))
         == Ok(Siblings([ParsedTag("a", [], [TagB, TagC])], []))
  {
    assert NestedDocument(o0, a, o1, b, c1, o2, c, x, eq, one, c2, c3)
        == [OpenTag(o0), Value("a", a, Some(a))] + NestedChildren(o1, b, c1, o2, c, x, eq, one, c2, c3);
    NestedSiblingsFixed(o1, b, c1, o2, c, x, eq, one, c2, c3);
    ParentDocumentFixed(OpenTag(o0), Value("a", a, Some(a)), NestedChildren(o1, b, c1, o2, c, x, eq, one, c2, c3),
                        [TagB, TagC], CloseTag(c3));
  }

  /** A document `{name` + children + `}` with no properties, corrected: one parent tag. */
  lemma ParentDocumentFixed(open: Token, name: Token, kids: seq<Token>, tags: seq<ParsedTag>, close: Token)
    requires open.OpenTag? && name.Value? && close.CloseTag? && |kids| > 0 && kids[0].OpenTag?
    requires ChildrenFixed(kids) == Ok(Siblings(tags, [close]))
    ensures ChildrenFixed([open, name] + kids) == Ok(Siblings([ParsedTag(name.content, [], tags)], []))
  {
    var body := [name] + kids;
    var doc := [open, name] + kids;
    var tag := ParsedTag(name.content, [], tags);
    assert TagFixed(body) == Ok(TagResult(tag, [])) by {
      assert body[0] == name && body[1] == kids[0] && body[1..] == kids;
      ParentTag(body);
      assert [close][1..] == [];
    }
    assert doc[0] == open && doc[1..] == body;
    assert ChildrenFixed(doc) == Ok(Siblings([tag] + [], [])) by {
      assert ChildrenFixed([]) == Ok(Siblings([], []));
      SiblingsCons(doc, tag, [], Siblings([], []));
    }
    assert [tag] + [] == [tag];
  }
}
