/** Printing a tree and tokenizing the bytes gives back the flattened tree. */
module RoundTrip {
  import opened Characters
  import opened Sequences
  import opened Tokens
  import opened Machine
  import opened Grammar
  import opened Parsing
  import opened Recognition
  import opened Escaping
  import opened XmlTree
  import opened Printing

  /** Names and escaped attribute values stay within the tokenizer's buffer. */
  predicate FitsAttribute(max: Limit, attributes: map<string, string>, k: string)
    requires k in attributes
  {
    |k| <= max && |EscapeAttribute(attributes[k])| <= max
  }

  predicate FitsAttributes(max: Limit, attributes: map<string, string>) {
    forall k | k in attributes :: FitsAttribute(max, attributes, k)
  }

  predicate Fits(max: Limit, n: Node)
    decreases n
  {
    match n
    case TextNode(_) => true
    case TagNode(name, attributes, children) =>
      |name| <= max && FitsAttributes(max, attributes) && forall i | 0 <= i < |children| :: Fits(max, children[i])
  }

  predicate FitsAll(max: Limit, ns: seq<Node>) {
    forall i | 0 <= i < |ns| :: Fits(max, ns[i])
  }

  lemma {:induction false} KeysValid(max: Limit, attributes: map<string, string>, keys: seq<string>)
    requires ValidAttributes(attributes) && forall k | k in keys :: k in attributes
    ensures var as' := PrintedKeys(attributes, keys);
            && |as'| == |keys|
            && (as' != [] ==> as'[0].before == " ")
            && ((forall i | 0 <= i < |as'| :: ValidAttribute(max, as'[i])) <==>
                (forall k | k in keys :: FitsAttribute(max, attributes, k)))
  {
    if keys != [] {
      var before, last := keys[..|keys| - 1], keys[|keys| - 1];
      assert keys == before + [last];
      assert last in keys;
      KeysValid(max, attributes, before);
      AttributeValid(max, attributes, last);
      hide EscapeAttribute, ValidAttribute, FitsAttribute, PrintedAttribute, ValidAttributes;
      AttributeAfter(max, PrintedKeys(attributes, before), PrintedAttribute(last, attributes[last]));
    }
  }

  lemma AttributeAfter(max: Limit, as': seq<Attribute>, a: Attribute)
    ensures (forall i | 0 <= i < |as' + [a]| :: ValidAttribute(max, (as' + [a])[i])) <==>
            (forall i | 0 <= i < |as'| :: ValidAttribute(max, as'[i])) && ValidAttribute(max, a)
  {
    hide ValidAttribute;
    assert (as' + [a])[|as'|] == a && forall i | 0 <= i < |as'| :: (as' + [a])[i] == as'[i];
  }

  lemma AttributeValid(max: Limit, attributes: map<string, string>, k: string)
    requires ValidAttributes(attributes) && k in attributes
    ensures var a := PrintedAttribute(k, attributes[k]);
            a.before == " " && (ValidAttribute(max, a) <==> FitsAttribute(max, attributes, k))
  {
    assert IsXmlName(k);
  }

  lemma HeadValid(max: Limit, name: string, attributes: map<string, string>)
    requires IsXmlName(name) && ValidAttributes(attributes)
    ensures ValidHead(max, PrintedHead(name, attributes)) <==> |name| <= max && FitsAttributes(max, attributes)
  {
    var keys := SortedKeys(attributes.Keys);
    KeysValid(max, attributes, keys);
    assert AllName(name);
    hide SortedKeys, PrintedKeys, ValidAttribute, FitsAttribute, AllName, ValidAttributes;
  }

  lemma ValidPiecesConcat(max: Limit, a: seq<Piece>, b: seq<Piece>)
    ensures ValidPieces(max, a + b) <==> ValidPieces(max, a) && ValidPieces(max, b)
  {
    hide ValidPiece;
    assert forall i | 0 <= i < |a| :: (a + b)[i] == a[i];
    assert forall i | 0 <= i < |b| :: (a + b)[|a| + i] == b[i];
  }

  lemma {:induction false} PiecesValid(max: Limit, n: Node)
    requires ValidNode(n)
    ensures ValidPieces(max, Pieces(n)) <==> Fits(max, n)
    decreases n, 1
  {
    match n
    case TextNode(_) =>
    case TagNode(name, attributes, children) =>
      HeadValid(max, name, attributes);
      PiecesAllValid(max, children);
      TagPiecesValid(max, PrintedHead(name, attributes), name, PiecesAll(children));
  }

  lemma TagPiecesValid(max: Limit, head: Head, name: string, inner: seq<Piece>)
    requires IsXmlName(name) && !head.isDeclaration
    ensures ValidPieces(max, [Mark(Element(head, "", true))]) <==> ValidHead(max, head)
    ensures ValidPieces(max, [Mark(Element(head, "", false))] + inner + [Mark(EndTag(name, ""))]) <==>
            ValidHead(max, head) && ValidPieces(max, inner) && |name| <= max
  {
    var open, close := Mark(Element(head, "", false)), Mark(EndTag(name, ""));
    assert AllSpace("") && AllName(name) && name + "" != "";
    SinglePiece(max, open);
    SinglePiece(max, close);
    SinglePiece(max, Mark(Element(head, "", true)));
    hide ValidHead, ValidPieces;
    ValidPiecesConcat(max, [open], inner);
    ValidPiecesConcat(max, [open] + inner, [close]);
  }

  lemma SinglePiece(max: Limit, p: Piece)
    ensures ValidPieces(max, [p]) <==> ValidPiece(max, p)
  {
    assert [p][0] == p;
  }

  lemma FitsFirst(max: Limit, ns: seq<Node>)
    requires ns != []
    ensures FitsAll(max, ns) <==> Fits(max, ns[0]) && FitsAll(max, ns[1..])
    ensures ValidNodes(ns) ==> ValidNode(ns[0]) && ValidNodes(ns[1..])
  {
    hide Fits, ValidNode;
    assert forall i | 0 <= i < |ns[1..]| :: ns[1..][i] == ns[i + 1];
    assert forall i | 1 <= i < |ns| :: ns[i] == ns[1..][i - 1];
  }

  lemma {:induction false} PiecesAllValid(max: Limit, ns: seq<Node>)
    requires ValidNodes(ns)
    ensures ValidPieces(max, PiecesAll(ns)) <==> FitsAll(max, ns)
    decreases ns, 0
  {
    if ns != [] {
      FitsFirst(max, ns);
      PiecesValid(max, ns[0]);
      PiecesAllValid(max, ns[1..]);
      ValidPiecesConcat(max, Pieces(ns[0]), PiecesAll(ns[1..]));
      hide Fits, FitsAll, ValidPieces, ValidNode, ValidNodes, Pieces;
    }
  }

  // ----- the printed document

  ghost function Printed(t: Node): Document {
    Group([], "", Pieces(t))
  }

  lemma PrintedDocument(max: Limit, t: Node)
    requires t.TagNode? && ValidNode(t)
    ensures DocumentText(Printed(t)) == Serialize(t) && Printed(t).text == ""
    ensures ValidDocument(max, Printed(t)) <==> Fits(max, t)
    ensures ItemsTokens(max, Printed(t).items) == SplitLong(max, Merge("", Flatten(t)))
  {
    var ps := Pieces(t);
    PiecesArePrinted(t);
    GroupText([], "", ps);
    PiecesValid(max, t);
    GroupValid(max, [], "", ps);
    PiecesFlatten(t);
    GroupTokens(max, [], "", ps);
  }

  /** The tokens reported for a printed tree. */
  function TreeTokens(max: Limit, t: Node): seq<XmlToken> {
    SplitLong(max, Merge("", Flatten(t)))
  }

  /**
   * Round trip. However the printed bytes of a tag tree are split into calls, a fresh tokenizer
   * reports exactly the tree's tokens in preorder, with adjacent text merged, empty text dropped
   * and text over the limit cut into blocks, and ends between lexemes with nothing left over.
   */
  lemma PrintThenTokenize(max: Limit, t: Node, chunks: seq<string>)
    requires t.TagNode? && ValidNode(t) && Fits(max, t)
    requires Join(chunks) == Serialize(t)
    ensures var m := RunChunks(max, START, chunks);
            && m.error == NoError && m.errors == [] && m.state == State.Text && m.buffer == ""
            && m.tokens == TreeTokens(max, t)
  {
    PrintedDocument(max, t);
    ChunkIndependence(max, START, chunks);
    hide Run, ItemsTokens, DocumentText;
    DocumentRun(max, Printed(t));
    assert TextTokens(FullBlocks("", max)) == [];
  }

  predicate ShortText(max: Limit, ts: seq<XmlToken>) {
    forall i | 0 <= i < |ts| ::
      ts[i].kind == TokenType.TextContent ==> ts[i] == TextToken(ts[i].content) && 0 < |ts[i].content| <= max
  }

  lemma {:induction false} NothingToSplit(max: Limit, ts: seq<XmlToken>)
    requires ShortText(max, ts)
    ensures SplitLong(max, ts) == ts
  {
    if ts != [] {
      NothingToSplit(max, ts[1..]);
      assert SplitToken(max, ts[0]) == [ts[0]] by {
        var s := ts[0].content;
        if ts[0].kind == TokenType.TextContent {
          assert Blocks(s, max) == [s] by {
            if |s| == max {
              assert s[..max] == s && s[max..] == "";
              assert FullBlocks(s, max) == [s] + FullBlocks("", max);
              assert Leftover(s, max) == Leftover("", max);
            }
          }
        }
      }
    }
  }

  /** When no run of escaped text is longer than the limit, the tokens are the merged preorder itself. */
  lemma ShortTextRoundTrip(max: Limit, t: Node)
    requires t.TagNode? && ValidNode(t) && Fits(max, t) && ShortText(max, Merge("", Flatten(t)))
    ensures Run(max, START, Serialize(t)).tokens == Merge("", Flatten(t))
  {
    NothingToSplit(max, Merge("", Flatten(t)));
    assert Join([Serialize(t)]) == Serialize(t) by { assert [Serialize(t)][1..] == []; }
    hide Serialize, Run;
    PrintThenTokenize(max, t, [Serialize(t)]);
    ChunkIndependence(max, START, [Serialize(t)]);
  }

  // ----- exactly when printed bytes are accepted

  lemma LargerLimit(small: Limit, large: Limit, s: Parse)
    requires small <= large && ValidParse(small, s)
    ensures ValidParse(large, s)
  {
    forall i | 0 <= i < |s.items|
      ensures ValidItem(large, s.items[i])
    {
      assert ValidItem(small, s.items[i]);
    }
  }

  lemma {:induction false} FitsItsOutput(max: Limit, n: Node)
    requires ValidNode(n) && |Serialize(n)| <= max
    ensures Fits(max, n)
    decreases n, 1
  {
    match n
    case TextNode(_) =>
    case TagNode(name, attributes, children) =>
      KeysFit(max, attributes, SortedKeys(attributes.Keys));
      FitsItsOutputAll(max, children);
  }

  lemma {:induction false} KeysFit(max: Limit, attributes: map<string, string>, keys: seq<string>)
    requires forall k | k in keys :: k in attributes
    requires |SerializeKeys(attributes, keys)| <= max
    ensures forall k | k in keys :: FitsAttribute(max, attributes, k)
  {
    if keys != [] {
      var before, last := keys[..|keys| - 1], keys[|keys| - 1];
      KeysFit(max, attributes, before);
      assert keys == before + [last];
    }
  }

  lemma {:induction false} FitsItsOutputAll(max: Limit, ns: seq<Node>)
    requires ValidNodes(ns) && |SerializeAll(ns)| <= max
    ensures FitsAll(max, ns)
    decreases ns, 0
  {
    if ns != [] {
      FitsItsOutput(max, ns[0]);
      FitsItsOutputAll(max, ns[1..]);
      assert ns == [ns[0]] + ns[1..];
      hide Fits, Serialize;
    }
  }

  /** A document legal for some larger buffer is read without error exactly when it is legal for this one. */
  lemma ReadIffLegal(max: Limit, large: Limit, d: Document)
    requires max <= large && ValidDocument(large, d)
    ensures Run(max, START, DocumentText(d)).error == NoError <==> ValidDocument(max, d)
  {
    var w := DocumentText(d);
    assert w == w + "" == ParseText(DocumentParse(d));
    if ValidDocument(max, d) {
      DocumentRun(max, d);
    }
    if Run(max, START, w).error == NoError {
      var s := ReadingOf(max, w);
      LargerLimit(max, large, s);
      Unambiguous(large, s, DocumentParse(d));
    }
  }

  /** The printed bytes are read without error exactly when every name and escaped value fits the buffer. */
  lemma AcceptedIffFits(max: Limit, t: Node)
    requires t.TagNode? && ValidNode(t)
    ensures Run(max, START, Serialize(t)).error == NoError <==> Fits(max, t)
  {
    var large := max + |Serialize(t)|;
    FitsItsOutput(large, t);
    PrintedDocument(max, t);
    PrintedDocument(large, t);
    ReadIffLegal(max, large, Printed(t));
  }
}
