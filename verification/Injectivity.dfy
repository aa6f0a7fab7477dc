/** Two trees print alike exactly when they are the same up to text normalisation. */
module Injectivity {
  import opened Sequences
  import opened Tokens
  import opened Grammar
  import opened Parsing
  import opened Recognition
  import opened Escaping
  import opened XmlTree
  import opened Printing
  import opened RoundTrip

  // ----- text normalisation

  function TextNodeIfAny(text: string): seq<Node> {
    if text == "" then [] else [TextNode(text)]
  }

  /** A tag that has children prints differently from one that has none, even when all are empty text. */
  function Inner(children: seq<Node>, canonical: seq<Node>): seq<Node> {
    if children != [] && canonical == [] then [TextNode("")] else canonical
  }

  /** Merge adjacent text and drop empty text, at every level; `text` stands before `ns`. */
  function Canonical(text: string, ns: seq<Node>): seq<Node>
    decreases ns
  {
    if ns == [] then TextNodeIfAny(text)
    else
      match ns[0]
      case TextNode(content) => Canonical(text + content, ns[1..])
      case TagNode(name, attributes, children) =>
        TextNodeIfAny(text) + [TagNode(name, attributes, Inner(children, Canonical("", children)))]
        + Canonical("", ns[1..])
  }

  // ----- normalisation does not change the output

  lemma {:induction false} CanonicalPrints(text: string, ns: seq<Node>)
    ensures SerializeAll(Canonical(text, ns)) == EscapeText(text) + SerializeAll(ns)
    decreases ns
  {
    if ns == [] {
      TextPrints(text);
    } else {
      match ns[0]
      case TextNode(content) =>
        CanonicalPrints(text + content, ns[1..]);
        EscapeTextConcat(text, content);
        Associate(EscapeText(text), EscapeText(content), SerializeAll(ns[1..]));
      case TagNode(_, _, children) =>
        CanonicalPrints("", children);
        CanonicalPrints("", ns[1..]);
        TagPrints(text, ns);
    }
  }

  lemma TagPrints(text: string, ns: seq<Node>)
    requires ns != [] && ns[0].TagNode?
    requires SerializeAll(Canonical("", ns[0].children)) == EscapeText("") + SerializeAll(ns[0].children)
    requires SerializeAll(Canonical("", ns[1..])) == EscapeText("") + SerializeAll(ns[1..])
    ensures SerializeAll(Canonical(text, ns)) == EscapeText(text) + SerializeAll(ns)
  {
    var n, rest := ns[0], Canonical("", ns[1..]);
    var t := TagNode(n.name, n.attributes, Inner(n.children, Canonical("", n.children)));
    assert Canonical(text, ns) == TextNodeIfAny(text) + [t] + rest;
    assert SerializeAll(ns) == Serialize(n) + SerializeAll(ns[1..]);
    assert EscapeText("") + SerializeAll(ns[1..]) == SerializeAll(ns[1..]);
    SerializeOne(t);
    InnerPrints(n);
    TextPrints(text);
    hide *;
    SerializeAllConcat(TextNodeIfAny(text) + [t], rest);
    SerializeAllConcat(TextNodeIfAny(text), [t]);
    Associate(EscapeText(text), Serialize(t), SerializeAll(rest));
  }

  lemma SerializeOne(t: Node)
    ensures SerializeAll([t]) == Serialize(t)
  {
    assert [t][1..] == [];
    assert SerializeAll([t]) == Serialize(t) + "";
  }

  lemma TextPrints(text: string)
    ensures SerializeAll(TextNodeIfAny(text)) == EscapeText(text) == EscapeText(text) + SerializeAll([])
  {
    if text != "" { SerializeOne(TextNode(text)); }
  }

  lemma InnerPrints(n: Node)
    requires n.TagNode?
    requires SerializeAll(Canonical("", n.children)) == EscapeText("") + SerializeAll(n.children)
    ensures Serialize(n.(children := Inner(n.children, Canonical("", n.children)))) == Serialize(n)
  {
    SerializeOne(TextNode(""));
    assert SerializeAll([]) == "" && Serialize(TextNode("")) == "";
    assert EscapeText("") + SerializeAll(n.children) == SerializeAll(n.children);
    if n.children == [] { assert Canonical("", []) == []; }
    hide Canonical, SerializeAttributes, SerializeAll, EscapeText;
  }

  lemma {:induction false} SerializeAllConcat(a: seq<Node>, b: seq<Node>)
    ensures SerializeAll(a + b) == SerializeAll(a) + SerializeAll(b)
  {
    if a == [] {
      assert a + b == b;
    } else {
      assert (a + b)[1..] == a[1..] + b;
      SerializeAllConcat(a[1..], b);
      hide Serialize;
      Associate(Serialize(a[0]), SerializeAll(a[1..]), SerializeAll(b));
    }
  }

  // ----- reading a normal form back from merged tokens

  function ExpandedAttributes(attributes: map<string, string>): map<string, string> {
    map k | k in attributes :: Expand(attributes[k])
  }

  /** Build the trees that the tokens describe, up to the first closing tag that was not opened. */
  function Build(ts: seq<XmlToken>): (r: (seq<Node>, seq<XmlToken>))
    ensures |r.1| <= |ts|
    decreases |ts|
  {
    if ts == [] || ts[0].kind == TokenType.CloseTag then ([], ts)
    else if ts[0].kind == TokenType.TextContent then
      var (siblings, rest) := Build(ts[1..]);
      ([TextNode(Expand(ts[0].content))] + siblings, rest)
    else if ts[0].kind == TokenType.OpenTag then
      var (children, rest) := Build(ts[1..]);
      var (siblings, rest') := Build(if rest == [] then [] else rest[1..]);
      var inner := if children == [] then [TextNode("")] else children;
      ([TagNode(ts[0].content, ExpandedAttributes(ts[0].attributes), inner)] + siblings, rest')
    else
      var (siblings, rest) := Build(ts[1..]);
      ([TagNode(ts[0].content, ExpandedAttributes(ts[0].attributes), [])] + siblings, rest)
  }

  predicate AtEnd(rest: seq<XmlToken>) {
    rest == [] || rest[0].kind == TokenType.CloseTag
  }

  lemma AttributesExpand(attributes: map<string, string>)
    ensures ExpandedAttributes(EscapedAttributes(attributes)) == attributes
  {
    forall k | k in attributes
      ensures Expand(EscapeAttribute(attributes[k])) == attributes[k]
    {
      ExpandEscapedAttribute(attributes[k]);
    }
  }

  lemma BuildText(text: string, ts: seq<XmlToken>)
    ensures Build(TextIfAny(EscapeText(text)) + ts) == (TextNodeIfAny(text) + Build(ts).0, Build(ts).1)
  {
    ExpandEscapedText(text);
    if text == "" {
      assert TextIfAny(EscapeText(text)) + ts == ts;
      assert TextNodeIfAny(text) + Build(ts).0 == Build(ts).0;
    } else {
      assert ([TextToken(EscapeText(text))] + ts)[1..] == ts;
    }
  }

  lemma MergeTag(text: string, t: XmlToken, after: seq<XmlToken>)
    requires t.kind != TokenType.TextContent
    ensures Merge(text, [t] + after) == TextIfAny(text) + ([t] + Merge("", after))
  {
    assert ([t] + after)[1..] == after;
    Associate(TextIfAny(text), [t], Merge("", after));
  }

  lemma BuildEmpty(t: XmlToken, ts: seq<XmlToken>)
    requires t.kind == TokenType.EmptyTag
    ensures Build([t] + ts) ==
            ([TagNode(t.content, ExpandedAttributes(t.attributes), [])] + Build(ts).0, Build(ts).1)
  {
    assert ([t] + ts)[1..] == ts;
  }

  lemma BuildOpen(t: XmlToken, ts: seq<XmlToken>, children: seq<Node>, close: XmlToken, after: seq<XmlToken>)
    requires t.kind == TokenType.OpenTag && Build(ts) == (children, [close] + after)
    ensures Build([t] + ts) ==
            ([TagNode(t.content, ExpandedAttributes(t.attributes), if children == [] then [TextNode("")] else children)]
             + Build(after).0, Build(after).1)
  {
    assert ([t] + ts)[1..] == ts;
    assert ([close] + after)[1..] == after;
  }

  /** The merged tokens of a forest determine its normal form. */
  lemma {:induction false} BuildCanonical(text: string, ns: seq<Node>, rest: seq<XmlToken>)
    requires AtEnd(rest)
    ensures Build(Merge(EscapeText(text), FlattenAll(ns) + rest)) == (Canonical(text, ns), Merge("", rest))
    decreases ns
  {
    if ns == [] {
      BuildNothing(text, rest);
    } else if ns[0].TextNode? {
      BuildTextNode(text, ns, rest);
    } else {
      BuildTagNode(text, ns, rest);
    }
  }

  lemma {:induction false} BuildTextNode(text: string, ns: seq<Node>, rest: seq<XmlToken>)
    requires AtEnd(rest) && ns != [] && ns[0].TextNode?
    ensures Build(Merge(EscapeText(text), FlattenAll(ns) + rest)) == (Canonical(text, ns), Merge("", rest))
    decreases ns, 0
  {
    var c, more := ns[0].content, FlattenAll(ns[1..]);
    BuildCanonical(text + c, ns[1..], rest);
    EscapeTextConcat(text, c);
    Associate([TextToken(EscapeText(c))], more, rest);
    assert ([TextToken(EscapeText(c))] + (more + rest))[1..] == more + rest;
    hide Build;
  }

  lemma BuildStopped(ts: seq<XmlToken>)
    requires AtEnd(ts)
    ensures Build(ts) == ([], ts)
  {}

  lemma MergeStopped(text: string, rest: seq<XmlToken>)
    requires AtEnd(rest)
    ensures Merge(text, rest) == TextIfAny(text) + Merge("", rest) && AtEnd(Merge("", rest))
  {
    if rest == [] {
      assert TextIfAny(text) + [] == TextIfAny(text);
    } else {
      assert rest == [rest[0]] + rest[1..];
      MergeTag(text, rest[0], rest[1..]);
      MergeClose(rest[0], rest[1..]);
      hide Merge, TextIfAny;
    }
  }

  lemma BuildNothing(text: string, rest: seq<XmlToken>)
    requires AtEnd(rest)
    ensures Build(Merge(EscapeText(text), FlattenAll([]) + rest)) == (Canonical(text, []), Merge("", rest))
  {
    assert FlattenAll([]) + rest == rest;
    assert TextNodeIfAny(text) + [] == TextNodeIfAny(text) == Canonical(text, []);
    hide EscapeText, Expand, TextNodeIfAny, FlattenAll, Merge, TextIfAny, Build, Canonical, AtEnd;
    MergeStopped(EscapeText(text), rest);
    BuildText(text, Merge("", rest));
    BuildStopped(Merge("", rest));
  }

  function Opening(n: Node): XmlToken
    requires n.TagNode?
  {
    var kind := if n.children == [] then TokenType.EmptyTag else TokenType.OpenTag;
    XmlToken(kind, n.name, EscapedAttributes(n.attributes))
  }

  function Closing(n: Node): XmlToken
    requires n.TagNode?
  {
    XmlToken(TokenType.CloseTag, n.name, map[])
  }

  lemma FlattenTag(ns: seq<Node>, rest: seq<XmlToken>)
    requires ns != [] && ns[0].TagNode?
    ensures var more := FlattenAll(ns[1..]) + rest;
            FlattenAll(ns) + rest ==
            if ns[0].children == [] then [Opening(ns[0])] + more
            else [Opening(ns[0])] + (FlattenAll(ns[0].children) + ([Closing(ns[0])] + more))
  {
    var f, more, siblings := Flatten(ns[0]), FlattenAll(ns[1..]) + rest, FlattenAll(ns[1..]);
    var open, inner, close := [Opening(ns[0])], FlattenAll(ns[0].children), [Closing(ns[0])];
    assert f == if ns[0].children == [] then open else open + inner + close;
    assert FlattenAll(ns) == f + siblings;
    hide *;
    Associate(f, siblings, rest);
    Associate(open, inner, close);
    Associate(open, inner + close, more);
    Associate(inner, close, more);
  }

  lemma {:induction false} BuildTagNode(text: string, ns: seq<Node>, rest: seq<XmlToken>)
    requires AtEnd(rest) && ns != [] && ns[0].TagNode?
    ensures Build(Merge(EscapeText(text), FlattenAll(ns) + rest)) == (Canonical(text, ns), Merge("", rest))
    decreases ns, 0
  {
    var e, t, more := EscapeText(text), Opening(ns[0]), FlattenAll(ns[1..]) + rest;
    var children, close := ns[0].children, Closing(ns[0]);
    AttributesExpand(ns[0].attributes);
    FlattenTag(ns, rest);
    assert EscapeText("") == "";
    assert AtEnd([close] + more);
    hide Build, Merge, Canonical, EscapeText, FlattenAll, ExpandedAttributes, EscapedAttributes, TextIfAny,
      TextNodeIfAny;
    BuildCanonical("", ns[1..], rest);
    if children == [] {
      MergeTag(e, t, more);
      BuildText(text, [t] + Merge("", more));
      BuildEmpty(t, Merge("", more));
      EmptyTagCanonical(text, ns);
    } else {
      var inside := FlattenAll(children) + ([close] + more);
      BuildCanonical("", children, [close] + more);
      MergeClose(close, more);
      MergeTag(e, t, inside);
      BuildText(text, [t] + Merge("", inside));
      BuildOpen(t, Merge("", inside), Canonical("", children), close, Merge("", more));
      OpenTagCanonical(text, ns);
    }
  }

  lemma MergeClose(close: XmlToken, more: seq<XmlToken>)
    requires close.kind == TokenType.CloseTag
    ensures Merge("", [close] + more) == [close] + Merge("", more)
  {
    MergeTag("", close, more);
    assert TextIfAny("") + ([close] + Merge("", more)) == [close] + Merge("", more);
  }

  lemma EmptyTagCanonical(text: string, ns: seq<Node>)
    requires ns != [] && ns[0].TagNode? && ns[0].children == []
    ensures Canonical(text, ns) ==
            TextNodeIfAny(text) + ([TagNode(ns[0].name, ns[0].attributes, [])] + Canonical("", ns[1..]))
  {
    assert Inner([], Canonical("", [])) == [];
    Associate(TextNodeIfAny(text), [TagNode(ns[0].name, ns[0].attributes, [])], Canonical("", ns[1..]));
  }

  lemma OpenTagCanonical(text: string, ns: seq<Node>)
    requires ns != [] && ns[0].TagNode? && ns[0].children != []
    ensures var children := Canonical("", ns[0].children);
            var inner := if children == [] then [TextNode("")] else children;
            Canonical(text, ns) ==
            TextNodeIfAny(text) + ([TagNode(ns[0].name, ns[0].attributes, inner)] + Canonical("", ns[1..]))
  {
    var inner := Inner(ns[0].children, Canonical("", ns[0].children));
    Associate(TextNodeIfAny(text), [TagNode(ns[0].name, ns[0].attributes, inner)], Canonical("", ns[1..]));
  }

  // ----- equal output, equal merged tokens

  function MergedItems(items: seq<Item>): seq<XmlToken> {
    if items == [] then []
    else
      var last := items[|items| - 1];
      MergedItems(items[..|items| - 1]) + (TextIfAny(last.text) + MarkupTokens(3, last.markup))
  }

  lemma LastMerged(text: string, ps: seq<Piece>)
    requires AllTags(ps) && |ps| == 1 && ps[0].Mark?
    ensures ps[1..] == [] && Merge(text, PieceTokens(ps)) == TextIfAny(text) + [PieceToken(ps[0])]
  {
    var own := TextIfAny(text) + [PieceToken(ps[0])];
    assert PieceTokens(ps) == [PieceToken(ps[0])] && PieceTokens(ps)[1..] == [];
    assert own + [] == own;
  }

  lemma {:induction false} GroupMerged(items: seq<Item>, text: string, ps: seq<Piece>)
    requires AllTags(ps) && EndsInTag(ps)
    ensures MergedItems(Group(items, text, ps).items) == MergedItems(items) + Merge(text, PieceTokens(ps))
    decreases |ps|
  {
    var ts := PieceTokens(ps);
    match ps[0]
    case Chars(t) =>
      GroupMerged(items, text + t, ps[1..]);
    case Mark(markup) =>
      var item, own := Item(text, markup), TextIfAny(text) + [ts[0]];
      assert (items + [item])[..|items|] == items;
      assert MergedItems(items + [item]) == MergedItems(items) + own;
      hide MergedItems, MarkupTokens, TextIfAny;
      if |ps| == 1 {
        LastMerged(text, ps);
      } else {
        GroupMerged(items + [item], "", ps[1..]);
        Associate(MergedItems(items), own, Merge("", ts[1..]));
      }
  }

  lemma PrintedMerged(t: Node)
    requires t.TagNode?
    ensures MergedItems(Printed(t).items) == Merge("", Flatten(t))
  {
    PiecesFlatten(t);
    GroupMerged([], "", Pieces(t));
    assert MergedItems([]) + Merge("", Flatten(t)) == Merge("", Flatten(t));
  }

  lemma SameMergedTokens(a: Node, b: Node)
    requires a.TagNode? && b.TagNode? && ValidNode(a) && ValidNode(b)
    requires Serialize(a) == Serialize(b)
    ensures Merge("", Flatten(a)) == Merge("", Flatten(b))
  {
    var max: Limit := |Serialize(a)| + 3;
    hide Serialize, Merge, Flatten, Printed, Fits, DocumentText, ItemsTokens, SplitLong;
    FitsItsOutput(max, a);
    FitsItsOutput(max, b);
    PrintedDocument(max, a);
    PrintedDocument(max, b);
    SameDocument(max, Printed(a), Printed(b));
    PrintedMerged(a);
    PrintedMerged(b);
  }

  lemma SameDocument(max: Limit, d: Document, e: Document)
    requires ValidDocument(max, d) && ValidDocument(max, e) && DocumentText(d) == DocumentText(e)
    ensures d == e
  {
    assert DocumentText(d) == DocumentText(d) + "" == ParseText(DocumentParse(d));
    assert DocumentText(e) == DocumentText(e) + "" == ParseText(DocumentParse(e));
    Unambiguous(max, DocumentParse(d), DocumentParse(e));
  }

  lemma FlattenOne(t: Node)
    ensures FlattenAll([t]) + [] == Flatten(t)
    ensures SerializeAll([t]) == Serialize(t)
  {
    SerializeOne(t);
    assert [t][1..] == [];
    assert FlattenAll([t]) == Flatten(t) + [];
  }

  /** Serialization is injective exactly up to text normalisation. */
  lemma PrintsAlike(a: Node, b: Node)
    requires a.TagNode? && b.TagNode? && ValidNode(a) && ValidNode(b)
    ensures Serialize(a) == Serialize(b) <==> Canonical("", [a]) == Canonical("", [b])
  {
    FlattenOne(a);
    FlattenOne(b);
    if Serialize(a) == Serialize(b) {
      SameMergedTokens(a, b);
      BuildCanonical("", [a], []);
      BuildCanonical("", [b], []);
    }
    CanonicalPrints("", [a]);
    CanonicalPrints("", [b]);
    assert EscapeText("") + Serialize(a) == Serialize(a) && EscapeText("") + Serialize(b) == Serialize(b);
  }
}
