/** Tags nest: every closing tag closes the innermost open one of its name. */
module Nesting {
  import opened Options
  import opened Sequences
  import opened Tokens
  import opened Grammar
  import opened Escaping
  import opened XmlTree
  import opened Printing
  import opened RoundTrip
  import opened SessionSteps
  import opened SessionLanguage
  import opened Replies

  function NestOne(open: seq<string>, t: XmlToken): Option<seq<string>> {
    match t.kind
    case OpenTag => Some(open + [t.content])
    case CloseTag =>
      if open != [] && open[|open| - 1] == t.content then Some(open[..|open| - 1]) else None
    case _ => Some(open)
  }

  /** The names of the tags left open, innermost last, or nothing when a closing tag does not match. */
  function Nest(open: seq<string>, ts: seq<XmlToken>): Option<seq<string>>
    decreases |ts|
  {
    if ts == [] then Some(open)
    else if NestOne(open, ts[0]).None? then None
    else Nest(NestOne(open, ts[0]).value, ts[1..])
  }

  lemma {:induction false} NestConcat(open: seq<string>, a: seq<XmlToken>, b: seq<XmlToken>)
    requires Nest(open, a).Some?
    ensures Nest(open, a + b) == Nest(Nest(open, a).value, b)
    decreases |a|
  {
    if a == [] {
      assert a + b == b;
    } else {
      assert (a + b)[1..] == a[1..] + b;
      NestConcat(NestOne(open, a[0]).value, a[1..], b);
    }
  }

  lemma NestTag(open: seq<string>, t: XmlToken)
    ensures Nest(open, [t]) == NestOne(open, t)
  {
    assert [t][1..] == [];
  }

  // ----- trees

  lemma {:induction false} TreeNests(open: seq<string>, n: Node)
    ensures Nest(open, Flatten(n)) == Some(open)
    decreases n, 1
  {
    match n
    case TextNode(content) => NestTag(open, TextToken(EscapeText(content)));
    case TagNode(name, attributes, children) =>
      if children == [] {
        NestTag(open, XmlToken(TokenType.EmptyTag, name, EscapedAttributes(attributes)));
      } else {
        var first, last := XmlToken(TokenType.OpenTag, name, EscapedAttributes(attributes)),
                           XmlToken(TokenType.CloseTag, name, map[]);
        NestTag(open, first);
        TreesNest(open + [name], children);
        NestTag(open + [name], last);
        assert (open + [name])[..|open|] == open;
        hide Nest, FlattenAll;
        NestConcat(open, [first], FlattenAll(children));
        NestConcat(open, [first] + FlattenAll(children), [last]);
      }
  }

  lemma {:induction false} TreesNest(open: seq<string>, ns: seq<Node>)
    ensures Nest(open, FlattenAll(ns)) == Some(open)
    decreases ns, 0
  {
    if ns != [] {
      TreeNests(open, ns[0]);
      TreesNest(open, ns[1..]);
      NestConcat(open, Flatten(ns[0]), FlattenAll(ns[1..]));
    }
  }

  predicate AllText(ts: seq<XmlToken>) {
    forall i | 0 <= i < |ts| :: ts[i].kind == TokenType.TextContent
  }

  lemma {:induction false} TextNests(open: seq<string>, ts: seq<XmlToken>)
    requires AllText(ts)
    ensures Nest(open, ts) == Some(open)
  {
    if ts != [] { TextNests(open, ts[1..]); }
  }

  lemma {:induction false} MergeNests(open: seq<string>, text: string, ts: seq<XmlToken>)
    ensures Nest(open, Merge(text, ts)) == Nest(open, ts)
    decreases |ts|
  {
    TextNests(open, TextIfAny(text));
    if ts != [] {
      if ts[0].kind == TokenType.TextContent {
        MergeNests(open, text + ts[0].content, ts[1..]);
      } else {
        var rest := Merge("", ts[1..]);
        NestConcat(open, TextIfAny(text), [ts[0]] + rest);
        Associate(TextIfAny(text), [ts[0]], rest);
        assert ([ts[0]] + rest)[1..] == rest;
        if NestOne(open, ts[0]).Some? { MergeNests(NestOne(open, ts[0]).value, "", ts[1..]); }
      }
    }
  }

  lemma {:induction false} SplitNests(max: Limit, open: seq<string>, ts: seq<XmlToken>)
    requires Nest(open, ts).Some?
    ensures Nest(open, SplitLong(max, ts)) == Nest(open, ts)
    decreases |ts|
  {
    if ts != [] {
      var t, rest := ts[0], SplitLong(max, ts[1..]);
      SplitNests(max, NestOne(open, t).value, ts[1..]);
      if t.kind == TokenType.TextContent {
        TextNests(open, TextTokens(Blocks(t.content, max)));
      } else {
        NestTag(open, t);
      }
      NestConcat(open, SplitToken(max, t), rest);
    }
  }

  /** The tokens of a printed tree nest and leave open what was open. */
  lemma PrintedTreesNest(max: Limit, open: seq<string>, n: Node)
    ensures Nest(open, TreeTokens(max, n)) == Some(open)
  {
    TreeNests(open, n);
    MergeNests(open, "", Flatten(n));
    SplitNests(max, open, Merge("", Flatten(n)));
  }

  // ----- replies

  /** What a lexeme without text before it opens or closes. */
  lemma ItemsNest(max: Limit, open: seq<string>, items: seq<Item>, item: Item)
    requires Nest(open, ItemsTokens(max, items)).Some?
    requires item.markup.Element? || item.markup.EndTag?
    ensures Nest(open, ItemsTokens(max, items + [item])) ==
            Nest(Nest(open, ItemsTokens(max, items)).value, MarkupTokens(max, item.markup))
  {
    var before, text, markup := ItemsTokens(max, items), TextRunTokens(max, item.text), MarkupTokens(max, item.markup);
    ItemsSnoc(max, items, item);
    var now := Nest(open, before).value;
    TextNests(now, text);
    hide Nest, ItemsTokens, TextRunTokens, MarkupTokens;
    NestConcat(open, before, text);
    NestConcat(open, before + text, markup);
  }

  lemma MarkNests(max: Limit, open: seq<string>, text: string, name: string, attributes: seq<(string, string)>)
    ensures Nest(open, MarkupTokens(max, Tag("", name, attributes, false).markup)) == Some(open + [name])
    ensures Nest(open, MarkupTokens(max, Tag("", name, attributes, true).markup)) == Some(open)
    ensures Nest(open + [name], MarkupTokens(max, Close(text, name).markup)) == Some(open)
  {
    hide Quoted, Blocks, Nest, AttributeMap;
    var head := Head(false, name, Quoted(attributes));
    NestTag(open, MarkupTokens(max, Element(head, "", false))[0]);
    NestTag(open, MarkupTokens(max, Element(head, "", true))[0]);
    NestTag(open + [name], MarkupTokens(max, EndTag(name, ""))[0]);
    assert (open + [name])[..|open|] == open;
  }

  lemma HeaderNests(max: Limit, open: seq<string>)
    ensures Nest(open, ItemsTokens(max, HEADER_ITEMS)) == Some(open + [STREAM])
  {
    MarkNests(max, open, "", STREAM, HEADER_ATTRIBUTES);
    assert Nest(open, ItemsTokens(max, [])) == Some(open);
    ItemsNest(max, open, [], Tag("", STREAM, HEADER_ATTRIBUTES, false));
    hide MarkupTokens, ItemsTokens, Nest, Quoted;
  }

  lemma EndNests(max: Limit, open: seq<string>)
    ensures Nest(open + [STREAM], ItemsTokens(max, [] + [Close("", STREAM)])) == Some(open)
  {
    MarkNests(max, open, "", STREAM, []);
    assert Nest(open + [STREAM], ItemsTokens(max, [])) == Some(open + [STREAM]);
    ItemsNest(max, open + [STREAM], [], Close("", STREAM));
    hide MarkupTokens, ItemsTokens, Nest;
  }

  lemma RestartNests(max: Limit, open: seq<string>)
    ensures Nest(open, ItemsTokens(max, RestartItems())) == Some(open)
  {
    var i1 := HEADER_ITEMS + [Tag("", "stream:error", [], false)];
    var i2 := i1 + [Tag("", "policy-violation", [("xmlns", STREAMS)], true)];
    var i3 := i2 + [Tag("", "text", TEXT_ATTRIBUTES, false)];
    var i4 := i3 + [Close(TOO_LARGE, "text")];
    var i5 := i4 + [Close("", "stream:error")];
    var o1 := open + [STREAM];
    var o2 := o1 + ["stream:error"];
    HeaderNests(max, open);
    MarkNests(max, o1, "", "stream:error", []);
    MarkNests(max, o2, "", "policy-violation", [("xmlns", STREAMS)]);
    MarkNests(max, o2, TOO_LARGE, "text", TEXT_ATTRIBUTES);
    MarkNests(max, open, "", STREAM, []);
    hide MarkupTokens, ItemsTokens, Nest, Quoted;
    ItemsNest(max, open, HEADER_ITEMS, Tag("", "stream:error", [], false));
    ItemsNest(max, open, i1, Tag("", "policy-violation", [("xmlns", STREAMS)], true));
    ItemsNest(max, open, i2, Tag("", "text", TEXT_ATTRIBUTES, false));
    ItemsNest(max, open, i3, Close(TOO_LARGE, "text"));
    ItemsNest(max, open, i4, Close("", "stream:error"));
    ItemsNest(max, open, i5, Close("", STREAM));
  }

  /** Replies other than the header and the end leave open what was open. */
  lemma ReplyNests(max: Limit, open: seq<string>, r: Reply)
    requires max >= LONGEST && r != StreamHeader && r != StreamEnd
    ensures Nest(open, ReplyTokens(max, r)) == Some(open)
  {
    if r == RestartError {
      RestartNests(max, open);
    } else {
      TreeReplyTokens(max, r);
      PrintedTreesNest(max, open, ReplyNode(r));
    }
    hide Nest, ItemsTokens, RestartItems, TreeTokens, Printed;
  }

  /** The tokens of `h` nest and leave `open` open. */
  ghost predicate Leaves(max: Limit, h: seq<Reply>, open: seq<string>) {
    Nest([], LogTokens(max, h)) == Some(open)
  }

  lemma LeavesOne(max: Limit, h: seq<Reply>, open: seq<string>, r: Reply, after: seq<string>)
    requires Leaves(max, h, open) && Nest(open, ReplyTokens(max, r)) == Some(after)
    ensures Leaves(max, h + [r], after)
  {
    assert (h + [r])[..|h|] == h;
    hide ReplyTokens;
    NestConcat([], LogTokens(max, h), ReplyTokens(max, r));
  }

  lemma LeavesHeader(max: Limit, h: seq<Reply>)
    requires Leaves(max, h, [])
    ensures Leaves(max, h + [StreamHeader], [STREAM])
  {
    HeaderNests(max, []);
    assert [] + [STREAM] == [STREAM];
    hide Nest, Leaves, ItemsTokens;
    LeavesOne(max, h, [], StreamHeader, [STREAM]);
  }

  lemma LeavesOther(max: Limit, h: seq<Reply>, open: seq<string>, r: Reply)
    requires max >= LONGEST && Leaves(max, h, open) && r != StreamHeader && r != StreamEnd
    ensures Leaves(max, h + [r], open)
  {
    ReplyNests(max, open, r);
    hide Nest, Leaves, ReplyTokens;
    LeavesOne(max, h, open, r, open);
  }

  lemma {:induction false} LeavesStream(max: Limit, h: seq<Reply>, n: nat)
    requires max >= LONGEST && Leaves(max, h, [])
    ensures Leaves(max, h + StreamSoFar(n), [STREAM])
  {
    hide Leaves;
    if n == 0 {
      LeavesHeader(max, h);
      LeavesOther(max, h + [StreamHeader], [STREAM], Features);
      Associate(h, [StreamHeader], [Features]);
      assert StreamSoFar(0) == [StreamHeader] + [Features];
    } else {
      LeavesStream(max, h, n - 1);
      LeavesOther(max, h + StreamSoFar(n - 1), [STREAM], Proceed);
      assert StreamSoFar(n) == StreamSoFar(n - 1) + [Proceed];
      hide StreamSoFar;
      Associate(h, StreamSoFar(n - 1), [Proceed]);
    }
  }

  lemma {:induction false} LeavesStreams(max: Limit, ns: seq<nat>)
    requires max >= LONGEST
    ensures Leaves(max, Streams(ns), [])
    decreases |ns|
  {
    if ns != [] {
      var front, n := ns[..|ns| - 1], ns[|ns| - 1];
      LeavesStreams(max, front);
      LeavesStream(max, Streams(front), n);
      EndNests(max, []);
      assert [] + [STREAM] == [STREAM];
      hide Leaves, StreamSoFar, Nest, ItemsTokens;
      LeavesOne(max, Streams(front) + StreamSoFar(n), [STREAM], StreamEnd, []);
    }
  }

  /** The tags left open at the end of a log. */
  function LeftOpen(inside: bool): seq<string> {
    if inside then [STREAM] else []
  }

  lemma LeavesEnding(max: Limit, h: seq<Reply>, e: Ending)
    requires max >= LONGEST && Leaves(max, h, [])
    ensures Leaves(max, h + EndingText(e), LeftOpen(IsInside(e)))
  {
    hide Leaves, StreamSoFar;
    match e
    case Between => assert h + [] == h;
    case Within(n) => LeavesStream(max, h, n);
    case NotAStream => LeavesOther(max, h, [], BadFormatError);
    case NotImplemented =>
      LeavesHeader(max, h);
      LeavesOther(max, h + [StreamHeader], [STREAM], InternalError);
      Associate(h, [StreamHeader], [InternalError]);
      assert EndingText(e) == [StreamHeader] + [InternalError];
    case Rejected(n, restart) =>
      var r := if restart then RestartError else TlsRequiredError;
      LeavesStream(max, h, n);
      LeavesOther(max, h + StreamSoFar(n), [STREAM], r);
      Associate(h, StreamSoFar(n), [r]);
  }

  /**
   * The tags in everything a session sends nest, by name. At the end only the stream can be open, and
   * it is exactly when the last stream tag of the client that was handled opened one: an error inside
   * a stream leaves it open.
   */
  lemma SessionsNest(max: Limit, w: seq<Input>)
    requires max >= LONGEST
    ensures Nest([], LogTokens(max, Respond(Start(CREATED), w).replies)) == Some(LeftOpen(StreamOpen(Handled(w))))
  {
    var ns, e := RepliesInLanguage(w);
    LeavesStreams(max, ns);
    LeavesEnding(max, Streams(ns), e);
    hide LogTokens, Respond, Nest, Streams, EndingText;
  }
}
