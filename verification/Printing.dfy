/** The printer's output read as a grammar document: first piece by piece, then grouped into items. */
module Printing {
  import opened Sequences
  import opened Tokens
  import opened Grammar
  import opened Escaping
  import opened XmlTree

  /** What one node contributes to the output: escaped characters, or one tag. */
  datatype Piece = Chars(text: string) | Mark(markup: Markup)

  function PrintedAttribute(name: string, value: string): Attribute {
    Attribute(" ", name, "", "", '"', EscapeAttribute(value))
  }

  function PrintedKeys(attributes: map<string, string>, keys: seq<string>): seq<Attribute>
    requires forall k | k in keys :: k in attributes
  {
    if keys == [] then []
    else
      var last := keys[|keys| - 1];
      PrintedKeys(attributes, keys[..|keys| - 1]) + [PrintedAttribute(last, attributes[last])]
  }

  ghost function PrintedHead(name: string, attributes: map<string, string>): Head {
    Head(false, name, PrintedKeys(attributes, SortedKeys(attributes.Keys)))
  }

  ghost function Pieces(n: Node): seq<Piece>
    decreases n, 1
  {
    match n
    case TextNode(content) => [Chars(EscapeText(content))]
    case TagNode(name, attributes, children) =>
      var head := PrintedHead(name, attributes);
      if children == [] then [Mark(Element(head, "", true))]
      else [Mark(Element(head, "", false))] + PiecesAll(children) + [Mark(EndTag(name, ""))]
  }

  ghost function PiecesAll(ns: seq<Node>): seq<Piece>
    decreases ns, 0
  {
    if ns == [] then [] else Pieces(ns[0]) + PiecesAll(ns[1..])
  }

  function PieceText(p: Piece): string {
    match p
    case Chars(text) => text
    case Mark(markup) => MarkupText(markup)
  }

  function PiecesText(ps: seq<Piece>): string {
    if ps == [] then "" else PieceText(ps[0]) + PiecesText(ps[1..])
  }

  lemma {:induction false} PiecesTextConcat(a: seq<Piece>, b: seq<Piece>)
    ensures PiecesText(a + b) == PiecesText(a) + PiecesText(b)
  {
    if a == [] {
      assert a + b == b;
    } else {
      assert (a + b)[1..] == a[1..] + b;
      PiecesTextConcat(a[1..], b);
      Associate(PieceText(a[0]), PiecesText(a[1..]), PiecesText(b));
    }
  }

  // ----- the pieces are what is printed

  lemma {:induction false} KeysText(attributes: map<string, string>, keys: seq<string>)
    requires forall k | k in keys :: k in attributes
    ensures AttributesText(PrintedKeys(attributes, keys)) == SerializeKeys(attributes, keys)
  {
    if keys != [] {
      var before, last := keys[..|keys| - 1], keys[|keys| - 1];
      var a := PrintedAttribute(last, attributes[last]);
      KeysText(attributes, before);
      AttributesSnoc(PrintedKeys(attributes, before), a);
      PrintedAttributeText(last, attributes[last]);
      hide AttributeText, SerializeAttribute, PrintedAttribute;
    }
  }

  lemma PrintedAttributeText(name: string, value: string)
    ensures AttributeText(PrintedAttribute(name, value)) == SerializeAttribute(name, value)
  {
    var t := " " + name;
    assert t + "" == t && t + "=" + "" == t + "=";
    assert t + "=" + ['"'] == t + "=\"";
  }

  lemma OpeningText(name: string, attributes: map<string, string>, isEmpty: bool)
    ensures MarkupText(Element(PrintedHead(name, attributes), "", isEmpty)) ==
            "<" + name + SerializeAttributes(attributes) + if isEmpty then "/>" else ">"
  {
    KeysText(attributes, SortedKeys(attributes.Keys));
    var t := "<" + name + SerializeAttributes(attributes);
    hide SerializeAttributes, AttributesText;
    assert t + "" == t;
  }

  lemma ClosingText(name: string)
    ensures MarkupText(EndTag(name, "")) == "</" + name + ">"
  {
    assert "</" + name + "" == "</" + name;
  }

  lemma {:induction false} PiecesArePrinted(n: Node)
    ensures PiecesText(Pieces(n)) == Serialize(n)
    decreases n, 1
  {
    match n
    case TextNode(content) =>
      assert PiecesText([Chars(EscapeText(content))]) == EscapeText(content);
    case TagNode(_, _, children) =>
      PiecesAllArePrinted(children);
      TagIsPrinted(n);
  }

  lemma TagIsPrinted(n: Node)
    requires n.TagNode? && PiecesText(PiecesAll(n.children)) == SerializeAll(n.children)
    ensures PiecesText(Pieces(n)) == Serialize(n)
  {
    OpeningText(n.name, n.attributes, n.children == []);
    ClosingText(n.name);
    TagPieces(PrintedHead(n.name, n.attributes), n.name, PiecesAll(n.children));
    var t := "<" + n.name + SerializeAttributes(n.attributes) + ">" + SerializeAll(n.children);
    Associate(t, "</", n.name);
    Associate(t + "</", n.name, ">");
    Associate("</", n.name, ">");
    Associate(t, "</", n.name + ">");
    hide PiecesText, PiecesAll, MarkupText, SerializeAttributes, SerializeAll, PrintedHead;
  }

  lemma TagPieces(head: Head, name: string, inner: seq<Piece>)
    ensures PiecesText([Mark(Element(head, "", true))]) == MarkupText(Element(head, "", true))
    ensures PiecesText([Mark(Element(head, "", false))] + inner + [Mark(EndTag(name, ""))]) ==
            MarkupText(Element(head, "", false)) + PiecesText(inner) + MarkupText(EndTag(name, ""))
  {
    var open, close := Mark(Element(head, "", false)), Mark(EndTag(name, ""));
    hide MarkupText;
    PiecesTextConcat([open], inner);
    PiecesTextConcat([open] + inner, [close]);
  }

  lemma {:induction false} PiecesAllArePrinted(ns: seq<Node>)
    ensures PiecesText(PiecesAll(ns)) == SerializeAll(ns)
    decreases ns, 0
  {
    if ns != [] {
      PiecesArePrinted(ns[0]);
      PiecesAllArePrinted(ns[1..]);
      PiecesTextConcat(Pieces(ns[0]), PiecesAll(ns[1..]));
    }
  }

  // ----- grouping pieces into items

  /** Adjacent characters belong to one text run; a tag ends the run. */
  function Group(items: seq<Item>, text: string, ps: seq<Piece>): Document
    decreases |ps|
  {
    if ps == [] then Document(items, text)
    else
      match ps[0]
      case Chars(t) => Group(items, text + t, ps[1..])
      case Mark(markup) => Group(items + [Item(text, markup)], "", ps[1..])
  }

  lemma {:induction false} GroupText(items: seq<Item>, text: string, ps: seq<Piece>)
    ensures DocumentText(Group(items, text, ps)) == ItemsText(items) + text + PiecesText(ps)
    decreases |ps|
  {
    if ps == [] {
      assert ItemsText(items) + text + "" == ItemsText(items) + text;
    } else {
      var t, rest := PieceText(ps[0]), PiecesText(ps[1..]);
      match ps[0] {
        case Chars(_) =>
          GroupText(items, text + t, ps[1..]);
          Associate(ItemsText(items), text, t);
        case Mark(markup) =>
          ItemsSnoc(3, items, Item(text, markup));
          GroupText(items + [Item(text, markup)], "", ps[1..]);
      }
      Associate(ItemsText(items) + text, t, rest);
    }
  }

  predicate ValidPiece(max: Limit, p: Piece) {
    match p
    case Chars(text) => ValidText(text)
    case Mark(markup) => ValidMarkup(max, markup)
  }

  predicate ValidPieces(max: Limit, ps: seq<Piece>) {
    forall i | 0 <= i < |ps| :: ValidPiece(max, ps[i])
  }

  /** The document is legal exactly when its pieces are. */
  lemma {:induction false} GroupValid(max: Limit, items: seq<Item>, text: string, ps: seq<Piece>)
    ensures ValidDocument(max, Group(items, text, ps)) <==>
            ValidItems(max, items) && ValidText(text) && ValidPieces(max, ps)
    decreases |ps|
  {
    hide ValidMarkup;
    if ps != [] {
      assert ValidPieces(max, ps) <==> ValidPiece(max, ps[0]) && ValidPieces(max, ps[1..]) by {
        assert forall i | 0 < i < |ps| :: ps[i] == ps[1..][i - 1];
      }
      match ps[0]
      case Chars(t) =>
        GroupValid(max, items, text + t, ps[1..]);
      case Mark(markup) =>
        var item := Item(text, markup);
        GroupValid(max, items + [item], "", ps[1..]);
        assert ValidItems(max, items + [item]) <==> ValidItems(max, items) && ValidItem(max, item) by {
          assert (items + [item])[|items|] == item;
          assert forall i | 0 <= i < |items| :: (items + [item])[i] == items[i];
        }
    }
  }

  // ----- the tokens of a tree

  function EscapedAttributes(attributes: map<string, string>): map<string, string> {
    map k | k in attributes :: EscapeAttribute(attributes[k])
  }

  /** Preorder: an opening, the children, a closing; a childless tag is one empty tag. */
  function Flatten(n: Node): seq<XmlToken>
    decreases n, 1
  {
    match n
    case TextNode(content) => [TextToken(EscapeText(content))]
    case TagNode(name, attributes, children) =>
      if children == [] then [XmlToken(TokenType.EmptyTag, name, EscapedAttributes(attributes))]
      else
        [XmlToken(TokenType.OpenTag, name, EscapedAttributes(attributes))] + FlattenAll(children)
        + [XmlToken(TokenType.CloseTag, name, map[])]
  }

  function FlattenAll(ns: seq<Node>): seq<XmlToken>
    decreases ns, 0
  {
    if ns == [] then [] else Flatten(ns[0]) + FlattenAll(ns[1..])
  }

  function TextIfAny(text: string): seq<XmlToken> {
    if text == "" then [] else [TextToken(text)]
  }

  /** Adjacent text tokens become one; empty text disappears. `text` has been read already. */
  function Merge(text: string, ts: seq<XmlToken>): seq<XmlToken>
    decreases |ts|
  {
    if ts == [] then TextIfAny(text)
    else if ts[0].kind == TokenType.TextContent then Merge(text + ts[0].content, ts[1..])
    else TextIfAny(text) + [ts[0]] + Merge("", ts[1..])
  }

  /** Text longer than the limit is reported in several tokens. */
  function SplitToken(max: Limit, t: XmlToken): seq<XmlToken> {
    if t.kind == TokenType.TextContent then TextTokens(Blocks(t.content, max)) else [t]
  }

  function SplitLong(max: Limit, ts: seq<XmlToken>): seq<XmlToken> {
    if ts == [] then [] else SplitToken(max, ts[0]) + SplitLong(max, ts[1..])
  }

  function PieceToken(p: Piece): XmlToken
    requires p.Mark? ==> p.markup.Element? || p.markup.EndTag?
  {
    match p
    case Chars(text) => TextToken(text)
    case Mark(markup) => MarkupTokens(3, markup)[0]
  }

  predicate AllTags(ps: seq<Piece>) {
    forall i | 0 <= i < |ps| :: ps[i].Mark? ==> ps[i].markup.Element? || ps[i].markup.EndTag?
  }

  function PieceTokens(ps: seq<Piece>): seq<XmlToken>
    requires AllTags(ps)
  {
    if ps == [] then [] else [PieceToken(ps[0])] + PieceTokens(ps[1..])
  }

  lemma {:induction false} PieceTokensConcat(a: seq<Piece>, b: seq<Piece>)
    requires AllTags(a) && AllTags(b)
    ensures AllTags(a + b) && PieceTokens(a + b) == PieceTokens(a) + PieceTokens(b)
  {
    if a == [] {
      assert a + b == b;
    } else {
      assert (a + b)[1..] == a[1..] + b;
      PieceTokensConcat(a[1..], b);
      hide PieceToken;
      Associate([PieceToken(a[0])], PieceTokens(a[1..]), PieceTokens(b));
    }
  }

  lemma {:induction false} KeysMap(attributes: map<string, string>, keys: seq<string>)
    requires forall k | k in keys :: k in attributes
    ensures var m := AttributeMap(PrintedKeys(attributes, keys));
            && (forall k :: k in m <==> k in keys)
            && (forall k | k in m :: m[k] == EscapeAttribute(attributes[k]))
  {
    if keys != [] {
      var before, last := keys[..|keys| - 1], keys[|keys| - 1];
      assert keys == before + [last];
      hide AttributeMap, EscapeAttribute;
      KeysMap(attributes, before);
      AttributesSnoc(PrintedKeys(attributes, before), PrintedAttribute(last, attributes[last]));
    }
  }

  lemma HeadMap(name: string, attributes: map<string, string>)
    ensures AttributeMap(PrintedHead(name, attributes).attributes) == EscapedAttributes(attributes)
  {
    KeysMap(attributes, SortedKeys(attributes.Keys));
  }

  lemma {:induction false} PiecesFlatten(n: Node)
    ensures AllTags(Pieces(n)) && PieceTokens(Pieces(n)) == Flatten(n)
    decreases n, 1
  {
    match n
    case TextNode(content) =>
      assert PieceTokens([Chars(EscapeText(content))]) == [TextToken(EscapeText(content))];
    case TagNode(name, attributes, children) =>
      HeadMap(name, attributes);
      PiecesAllFlatten(children);
      TagTokens(PrintedHead(name, attributes), name, PiecesAll(children));
  }

  lemma TagTokens(head: Head, name: string, inner: seq<Piece>)
    requires AllTags(inner) && !head.isDeclaration
    ensures PieceTokens([Mark(Element(head, "", true))]) ==
            [XmlToken(TokenType.EmptyTag, head.name, AttributeMap(head.attributes))]
    ensures var ps := [Mark(Element(head, "", false))] + inner + [Mark(EndTag(name, ""))];
            AllTags(ps) && PieceTokens(ps) ==
            [XmlToken(TokenType.OpenTag, head.name, AttributeMap(head.attributes))] + PieceTokens(inner)
            + [XmlToken(TokenType.CloseTag, name, map[])]
  {
    var open, close := Mark(Element(head, "", false)), Mark(EndTag(name, ""));
    PieceTokensConcat([open], inner);
    PieceTokensConcat([open] + inner, [close]);
  }

  lemma {:induction false} PiecesAllFlatten(ns: seq<Node>)
    ensures AllTags(PiecesAll(ns)) && PieceTokens(PiecesAll(ns)) == FlattenAll(ns)
    decreases ns, 0
  {
    if ns != [] {
      PiecesFlatten(ns[0]);
      PiecesAllFlatten(ns[1..]);
      PieceTokensConcat(Pieces(ns[0]), PiecesAll(ns[1..]));
    }
  }

  // ----- the tokens of the grouped document

  lemma SplitText(max: Limit, text: string)
    ensures SplitLong(max, TextIfAny(text)) == TextRunTokens(max, text)
  {
    if text != "" {
      assert SplitLong(max, [TextToken(text)]) == TextRunTokens(max, text) + [];
    }
  }

  lemma {:induction false} SplitConcat(max: Limit, a: seq<XmlToken>, b: seq<XmlToken>)
    ensures SplitLong(max, a + b) == SplitLong(max, a) + SplitLong(max, b)
  {
    if a == [] {
      assert a + b == b;
    } else {
      assert (a + b)[1..] == a[1..] + b;
      SplitConcat(max, a[1..], b);
    }
  }

  lemma SplitRun(max: Limit, text: string, t: XmlToken, rest: seq<XmlToken>)
    requires t.kind != TokenType.TextContent
    ensures SplitLong(max, TextIfAny(text) + [t] + rest) == TextRunTokens(max, text) + [t] + SplitLong(max, rest)
  {
    SplitText(max, text);
    SplitConcat(max, TextIfAny(text) + [t], rest);
    SplitConcat(max, TextIfAny(text), [t]);
    assert SplitLong(max, [t]) == [t];
  }

  /** The last piece is a tag, as it is for every tag node. */
  predicate EndsInTag(ps: seq<Piece>) {
    ps != [] && ps[|ps| - 1].Mark?
  }

  lemma MarkTokens(max: Limit, items: seq<Item>, text: string, markup: Markup, after: seq<XmlToken>)
    requires markup.Element? || markup.EndTag?
    ensures var t := PieceToken(Mark(markup));
            && t.kind != TokenType.TextContent
            && ItemsTokens(max, items + [Item(text, markup)]) + SplitLong(max, after) ==
               ItemsTokens(max, items) + SplitLong(max, TextIfAny(text) + [t] + after)
  {
    var t, b := PieceToken(Mark(markup)), ItemsTokens(max, items);
    var r, x := TextRunTokens(max, text), SplitLong(max, after);
    ItemsSnoc(max, items, Item(text, markup));
    SplitRun(max, text, t, after);
    assert MarkupTokens(max, markup) == [t];
    hide *;
    Associate(b, r, [t]);
    Associate(b, r + [t], x);
  }

  lemma {:induction false} GroupTokens(max: Limit, items: seq<Item>, text: string, ps: seq<Piece>)
    requires AllTags(ps) && EndsInTag(ps)
    ensures var d := Group(items, text, ps);
            && d.text == ""
            && ItemsTokens(max, d.items) == ItemsTokens(max, items) + SplitLong(max, Merge(text, PieceTokens(ps)))
    decreases |ps|
  {
    var ts := PieceTokens(ps);
    match ps[0]
    case Chars(t) =>
      GroupTokens(max, items, text + t, ps[1..]);
    case Mark(markup) =>
      var more := items + [Item(text, markup)];
      MarkTokens(max, items, text, markup, Merge("", ts[1..]));
      hide ItemsTokens, SplitLong, PieceToken, TextIfAny;
      if |ps| == 1 {
        LastPiece(max, more, ps);
      } else {
        GroupTokens(max, more, "", ps[1..]);
      }
  }

  lemma LastPiece(max: Limit, items: seq<Item>, ps: seq<Piece>)
    requires AllTags(ps) && |ps| == 1
    ensures Group(items, "", ps[1..]) == Document(items, "")
    ensures ItemsTokens(max, items) + SplitLong(max, Merge("", PieceTokens(ps)[1..])) == ItemsTokens(max, items)
  {
    assert PieceTokens(ps)[1..] == [];
  }
}
