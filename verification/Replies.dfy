/** The bytes a session sends, and how a client's tokenizer reads them. */
module Replies {
  import opened Sequences
  import opened Tokens
  import opened Machine
  import opened Grammar
  import opened Recognition
  import opened Escaping
  import opened XmlTree
  import opened RoundTrip
  import opened SessionSteps

  const STREAMS := "urn:ietf:params:xml:ns:xmpp-streams"
  const TLS := "urn:ietf:params:xml:ns:xmpp-tls"
  const ETHERX := "http://etherx.jabber.org/streams"

  // ----- replies built as trees

  function Condition(name: string, attributes: map<string, string>, text: string): seq<Node> {
    [TagNode(name, map["xmlns" := STREAMS], []),
     TagNode("text", map["xmlns" := STREAMS] + attributes, [TextNode(text)])]
  }

  const NOT_OPENING := "First element must be an" + " opening stream handler."

  const FEATURES: Node :=
    TagNode("stream:features", map[], [TagNode("starttls", map["xmlns" := TLS], [TagNode("required", map[], [])])])
  const PROCEED: Node := TagNode("proceed", map["xmlns" := TLS], [])
  const BAD_FORMAT: Node :=
    TagNode("stream:stream", map["xmlns:stream" := ETHERX],
      [TagNode("stream:error", map[], Condition("bad-format", map[], NOT_OPENING))])
  const TLS_REQUIRED: Node :=
    TagNode("stream:error", map[], Condition("policy-violation", map["xml:lang" := "en"], "TLS is required"))
  const INTERNAL: Node :=
    TagNode("stream:error", map[],
      Condition("internal-server-error", map["xml:lang" := "en"], "An unexpected error occurred."))

  // ----- replies sent as text

  function Written(attributes: seq<(string, string)>): string {
    if attributes == [] then ""
    else
      var last := attributes[|attributes| - 1];
      Written(attributes[..|attributes| - 1]) + (" " + last.0 + "='" + last.1 + "'")
  }

  const HEADER_ATTRIBUTES: seq<(string, string)> :=
    [("xmlns", "jabber:client"), ("xmlns:stream", ETHERX), ("id", "err-1"), ("from", "example.com"), ("version", "1.0")]
  const TEXT_ATTRIBUTES: seq<(string, string)> := [("xmlns", STREAMS), ("xml:lang", "en")]
  const TOO_LARGE := "Stanza size limit of 64KB exceeded."

  const HEADER := "<" + STREAM + Written(HEADER_ATTRIBUTES) + ">"
  const END := "</" + STREAM + ">"

  function RestartText(): string {
    HEADER + "<stream:error>" + ("<policy-violation" + Written([("xmlns", STREAMS)]) + "/>") +
    ("<text" + Written(TEXT_ATTRIBUTES) + ">") + (TOO_LARGE + "</text>") + "</stream:error>" + END
  }

  function ReplyNode(r: Reply): Node
    requires r in {Features, Proceed, BadFormatError, TlsRequiredError, InternalError}
  {
    match r
    case Features => FEATURES
    case Proceed => PROCEED
    case BadFormatError => BAD_FORMAT
    case TlsRequiredError => TLS_REQUIRED
    case _ => INTERNAL
  }

  ghost function ReplyText(r: Reply): string {
    match r
    case StreamHeader => HEADER
    case StreamEnd => END
    case RestartError => RestartText()
    case _ => Serialize(ReplyNode(r))
  }

  /** Everything sent, in order. */
  ghost function LogText(h: seq<Reply>): string {
    if h == [] then "" else LogText(h[..|h| - 1]) + ReplyText(h[|h| - 1])
  }

  // ----- the texts as lexemes

  function Quoted(attributes: seq<(string, string)>): seq<Attribute> {
    if attributes == [] then []
    else
      var last := attributes[|attributes| - 1];
      Quoted(attributes[..|attributes| - 1]) + [Attribute(" ", last.0, "", "", '\'', last.1)]
  }

  function Tag(text: string, name: string, attributes: seq<(string, string)>, isEmpty: bool): Item {
    Item(text, Element(Head(false, name, Quoted(attributes)), "", isEmpty))
  }

  function Close(text: string, name: string): Item {
    Item(text, EndTag(name, ""))
  }

  lemma PairText(name: string, value: string)
    ensures AttributeText(Attribute(" ", name, "", "", '\'', value)) == " " + name + "='" + value + "'"
  {
    assert " " + name + "" + "=" + "" + ['\''] == " " + name + "='";
  }

  lemma {:induction false} QuotedText(attributes: seq<(string, string)>)
    ensures AttributesText(Quoted(attributes)) == Written(attributes)
    decreases |attributes|
  {
    if attributes != [] {
      var front, last := attributes[..|attributes| - 1], attributes[|attributes| - 1];
      QuotedText(front);
      PairText(last.0, last.1);
      hide AttributeText, AttributesText;
      AttributesSnoc(Quoted(front), Attribute(" ", last.0, "", "", '\'', last.1));
    }
  }

  lemma TagText(name: string, attributes: seq<(string, string)>, isEmpty: bool)
    ensures MarkupText(Tag("", name, attributes, isEmpty).markup) ==
            "<" + name + Written(attributes) + if isEmpty then "/>" else ">"
  {
    QuotedText(attributes);
    hide AttributesText, Written, Quoted;
    var opening := "<" + name + Written(attributes);
    assert opening + "" == opening;
  }

  lemma AppendTag(items: seq<Item>, name: string, attributes: seq<(string, string)>, isEmpty: bool)
    ensures ItemsText(items + [Tag("", name, attributes, isEmpty)]) ==
            ItemsText(items) + ("<" + name + Written(attributes) + if isEmpty then "/>" else ">")
  {
    ItemsSnoc(3, items, Tag("", name, attributes, isEmpty));
    TagText(name, attributes, isEmpty);
    assert ItemsText(items) + "" == ItemsText(items);
    hide ItemsText, Written, Quoted, MarkupText;
  }

  lemma AppendClose(items: seq<Item>, text: string, name: string)
    ensures ItemsText(items + [Close(text, name)]) == ItemsText(items) + (text + ("</" + name + ">"))
  {
    ItemsSnoc(3, items, Close(text, name));
    Associate(ItemsText(items), text, "</" + name + ">");
    hide ItemsText;
  }

  const HEADER_ITEMS: seq<Item> := [] + [Tag("", STREAM, HEADER_ATTRIBUTES, false)]

  function RestartItems(): seq<Item> {
    HEADER_ITEMS + [Tag("", "stream:error", [], false)] + [Tag("", "policy-violation", [("xmlns", STREAMS)], true)] +
    [Tag("", "text", TEXT_ATTRIBUTES, false)] + [Close(TOO_LARGE, "text")] + [Close("", "stream:error")] +
    [Close("", STREAM)]
  }

  lemma HeaderText()
    ensures ItemsText(HEADER_ITEMS) == HEADER
  {
    AppendTag([], STREAM, HEADER_ATTRIBUTES, false);
    assert ItemsText([]) + HEADER == HEADER;
    hide ItemsText, Written;
  }

  lemma RestartLiterals()
    ensures "<" + "stream:error" + Written([]) + ">" == "<stream:error>"
    ensures "" + ("</" + "stream:error" + ">") == "</stream:error>"
    ensures "<" + "policy-violation" == "<policy-violation"
    ensures "<" + "text" == "<text" && "</" + "text" + ">" == "</text>"
  {}

  lemma RestartItemsText()
    ensures ItemsText(RestartItems()) == RestartText()
  {
    var i1 := HEADER_ITEMS + [Tag("", "stream:error", [], false)];
    var i2 := i1 + [Tag("", "policy-violation", [("xmlns", STREAMS)], true)];
    var i3 := i2 + [Tag("", "text", TEXT_ATTRIBUTES, false)];
    var i4 := i3 + [Close(TOO_LARGE, "text")];
    var i5 := i4 + [Close("", "stream:error")];
    RestartLiterals();
    assert "" + ("</" + STREAM + ">") == END;
    HeaderText();
    hide ItemsText, Written, Tag, Close;
    AppendTag(HEADER_ITEMS, "stream:error", [], false);
    AppendTag(i1, "policy-violation", [("xmlns", STREAMS)], true);
    AppendTag(i2, "text", TEXT_ATTRIBUTES, false);
    AppendClose(i3, TOO_LARGE, "text");
    AppendClose(i4, "", "stream:error");
    AppendClose(i5, "", STREAM);
  }

  ghost function ReplyItems(r: Reply): seq<Item> {
    match r
    case StreamHeader => HEADER_ITEMS
    case StreamEnd => [] + [Close("", STREAM)]
    case RestartError => RestartItems()
    case _ => Printed(ReplyNode(r)).items
  }

  // ----- they are legal

  /** The longest name or value in a reply. */
  const LONGEST: nat := 35

  predicate IsPlainPair(max: Limit, p: (string, string)) {
    ValidName(max, p.0) && '\'' !in p.1 && |p.1| <= max
  }

  lemma {:induction false} QuotedValid(max: Limit, attributes: seq<(string, string)>)
    requires forall p | p in attributes :: IsPlainPair(max, p)
    ensures forall i | 0 <= i < |Quoted(attributes)| :: ValidAttribute(max, Quoted(attributes)[i])
    ensures Quoted(attributes) != [] ==> Quoted(attributes)[0].before == " "
    decreases |attributes|
  {
    if attributes != [] {
      QuotedValid(max, attributes[..|attributes| - 1]);
      assert attributes[|attributes| - 1] in attributes;
    }
  }

  lemma TagValid(max: Limit, name: string, attributes: seq<(string, string)>, isEmpty: bool)
    requires ValidName(max, name) && forall p | p in attributes :: IsPlainPair(max, p)
    ensures ValidItem(max, Tag("", name, attributes, isEmpty))
  {
    QuotedValid(max, attributes);
    hide Quoted, ValidAttribute, ValidName, IsPlainPair;
  }

  lemma CloseValid(max: Limit, text: string, name: string)
    requires ValidName(max, name) && ValidText(text)
    ensures ValidItem(max, Close(text, name))
  {}

  lemma HeaderValid(max: Limit)
    requires max >= LONGEST
    ensures ValidItems(max, HEADER_ITEMS)
  {
    assert forall p | p in HEADER_ATTRIBUTES :: IsPlainPair(max, p);
    TagValid(max, STREAM, HEADER_ATTRIBUTES, false);
    hide ValidItem, Tag;
  }

  lemma ValidSnoc(max: Limit, items: seq<Item>, item: Item)
    requires ValidItems(max, items) && ValidItem(max, item)
    ensures ValidItems(max, items + [item])
  {
    hide ValidItem;
  }

  lemma RestartNames(max: Limit)
    requires max >= LONGEST
    ensures ValidName(max, "stream:error") && ValidName(max, "policy-violation") && ValidName(max, "text")
    ensures ValidName(max, STREAM)
  {}

  lemma RestartValues(max: Limit)
    requires max >= LONGEST
    ensures IsPlainPair(max, ("xmlns", STREAMS)) && IsPlainPair(max, ("xml:lang", "en"))
    ensures ValidText(TOO_LARGE)
  {}

  lemma RestartValid(max: Limit)
    requires max >= LONGEST
    ensures ValidItems(max, RestartItems())
  {
    RestartNames(max);
    RestartValues(max);
    HeaderValid(max);
    hide ValidItem, ValidItems, ValidName, IsPlainPair, Tag, Close;
    var i1 := HEADER_ITEMS + [Tag("", "stream:error", [], false)];
    var i2 := i1 + [Tag("", "policy-violation", [("xmlns", STREAMS)], true)];
    var i3 := i2 + [Tag("", "text", TEXT_ATTRIBUTES, false)];
    var i4 := i3 + [Close(TOO_LARGE, "text")];
    var i5 := i4 + [Close("", "stream:error")];
    TagValid(max, "stream:error", [], false);
    TagValid(max, "policy-violation", [("xmlns", STREAMS)], true);
    TagValid(max, "text", TEXT_ATTRIBUTES, false);
    CloseValid(max, TOO_LARGE, "text");
    CloseValid(max, "", "stream:error");
    CloseValid(max, "", STREAM);
    ValidSnoc(max, HEADER_ITEMS, Tag("", "stream:error", [], false));
    ValidSnoc(max, i1, Tag("", "policy-violation", [("xmlns", STREAMS)], true));
    ValidSnoc(max, i2, Tag("", "text", TEXT_ATTRIBUTES, false));
    ValidSnoc(max, i3, Close(TOO_LARGE, "text"));
    ValidSnoc(max, i4, Close("", "stream:error"));
    ValidSnoc(max, i5, Close("", STREAM));
  }

  predicate IsPlain(s: string) {
    forall i | 0 <= i < |s| :: s[i] >= ' ' && s[i] != '"' && s[i] != '&' && s[i] != '<'
  }

  lemma {:induction false} PlainValue(s: string)
    requires IsPlain(s)
    ensures EscapeAttribute(s) == s && IsCharacterData(s)
  {
    if s != "" {
      PlainValue(s[1..]);
      assert s == [s[0]] + s[1..];
    }
  }

  lemma StreamsPlain()
    ensures IsPlain(STREAMS) && |STREAMS| == 35
  {}

  lemma OthersPlain()
    ensures IsPlain(TLS) && |TLS| == 31 && IsPlain(ETHERX) && |ETHERX| == 32 && IsPlain("en")
  {}

  lemma Values()
    ensures |EscapeAttribute(STREAMS)| == 35 && |EscapeAttribute(TLS)| == 31
    ensures |EscapeAttribute(ETHERX)| == 32 && |EscapeAttribute("en")| == 2
    ensures IsCharacterData(STREAMS) && IsCharacterData(TLS) && IsCharacterData(ETHERX) && IsCharacterData("en")
  {
    StreamsPlain();
    OthersPlain();
    hide EscapeAttribute, IsCharacterData, IsPlain;
    PlainValue(STREAMS);
    PlainValue(TLS);
    PlainValue(ETHERX);
    PlainValue("en");
  }

  predicate IsGood(max: Limit, n: Node) {
    ValidNode(n) && Fits(max, n)
  }

  lemma TagGood(max: Limit, n: Node)
    requires n.TagNode? && IsXmlName(n.name) && |n.name| <= max
    requires forall k | k in n.attributes ::
               && IsXmlName(k) && |k| <= max
               && IsCharacterData(n.attributes[k]) && |EscapeAttribute(n.attributes[k])| <= max
    requires forall c | c in n.children :: IsGood(max, c)
    ensures IsGood(max, n)
  {
    hide IsXmlName, IsCharacterData, EscapeAttribute;
    forall i | 0 <= i < |n.children|
      ensures IsGood(max, n.children[i])
    {
      assert n.children[i] in n.children;
    }
  }

  lemma AttributeNames()
    ensures IsXmlName("xmlns") && IsXmlName("xml:lang") && IsXmlName("xmlns:stream") && IsXmlName("text")
  {}

  lemma StreamNames()
    ensures IsXmlName("stream:error") && IsXmlName(STREAM) && IsXmlName("stream:features") && IsXmlName("starttls")
    ensures IsXmlName("required") && IsXmlName("proceed")
  {}

  lemma ConditionNames()
    ensures IsXmlName("bad-format") && IsXmlName("policy-violation") && IsXmlName("internal-server-error")
  {}

  lemma NotOpeningText()
    ensures IsCharacterData("First element must be an") && IsCharacterData(" opening stream handler.")
  {}

  lemma ShortTexts()
    ensures IsCharacterData("TLS is required") && IsCharacterData("An unexpected error occurred.")
  {}

  lemma Texts()
    ensures IsCharacterData(NOT_OPENING)
    ensures IsCharacterData("TLS is required") && IsCharacterData("An unexpected error occurred.")
  {
    NotOpeningText();
    ShortTexts();
    DataConcat("First element must be an", " opening stream handler.");
    hide IsCharacterData;
  }

  lemma DataConcat(a: string, b: string)
    requires IsCharacterData(a) && IsCharacterData(b)
    ensures IsCharacterData(a + b)
  {}

  lemma ConditionGood(max: Limit, name: string, attributes: map<string, string>, text: string)
    requires max >= LONGEST && IsXmlName(name) && |name| <= max && IsCharacterData(text)
    requires attributes == map[] || attributes == map["xml:lang" := "en"]
    ensures forall c | c in Condition(name, attributes, text) :: IsGood(max, c)
  {
    AttributeNames();
    Values();
    hide IsXmlName, IsCharacterData, EscapeAttribute;
    TagGood(max, TagNode(name, map["xmlns" := STREAMS], []));
    assert IsGood(max, TextNode(text));
    TagGood(max, TagNode("text", map["xmlns" := STREAMS] + attributes, [TextNode(text)]));
    hide IsGood;
  }

  /** An element whose attributes, if any, carry one namespace under the given name. */
  lemma NamespacedGood(max: Limit, name: string, key: string, value: string, children: seq<Node>)
    requires max >= LONGEST && IsXmlName(name) && |name| <= max && IsXmlName(key) && |key| <= max
    requires value == TLS || value == ETHERX
    requires forall c | c in children :: IsGood(max, c)
    ensures IsGood(max, TagNode(name, map[], children)) && IsGood(max, TagNode(name, map[key := value], children))
  {
    Values();
    hide IsXmlName, IsCharacterData, EscapeAttribute, IsGood;
    TagGood(max, TagNode(name, map[], children));
    TagGood(max, TagNode(name, map[key := value], children));
  }

  lemma FeaturesGood(max: Limit)
    requires max >= LONGEST
    ensures IsGood(max, FEATURES) && IsGood(max, PROCEED)
  {
    AttributeNames();
    StreamNames();
    hide IsXmlName, IsGood;
    NamespacedGood(max, "required", "xmlns", TLS, []);
    NamespacedGood(max, "starttls", "xmlns", TLS, [TagNode("required", map[], [])]);
    NamespacedGood(max, "stream:features", "xmlns", TLS, FEATURES.children);
    NamespacedGood(max, "proceed", "xmlns", TLS, []);
  }

  lemma ErrorsGood(max: Limit)
    requires max >= LONGEST
    ensures IsGood(max, BAD_FORMAT) && IsGood(max, TLS_REQUIRED) && IsGood(max, INTERNAL)
  {
    AttributeNames();
    StreamNames();
    ConditionNames();
    Texts();
    hide IsXmlName, IsGood, IsCharacterData, Condition;
    ConditionGood(max, "bad-format", map[], NOT_OPENING);
    NamespacedGood(max, "stream:error", "xmlns:stream", ETHERX, BAD_FORMAT.children[0].children);
    NamespacedGood(max, STREAM, "xmlns:stream", ETHERX, BAD_FORMAT.children);
    ConditionGood(max, "policy-violation", map["xml:lang" := "en"], "TLS is required");
    NamespacedGood(max, "stream:error", "xmlns:stream", ETHERX, TLS_REQUIRED.children);
    ConditionGood(max, "internal-server-error", map["xml:lang" := "en"], "An unexpected error occurred.");
    NamespacedGood(max, "stream:error", "xmlns:stream", ETHERX, INTERNAL.children);
  }

  lemma NodeGood(max: Limit, r: Reply)
    requires max >= LONGEST && r in {Features, Proceed, BadFormatError, TlsRequiredError, InternalError}
    ensures IsGood(max, ReplyNode(r)) && ReplyNode(r).TagNode?
  {
    FeaturesGood(max);
    ErrorsGood(max);
    hide IsGood, Condition;
  }

  // ----- how they are read

  /** Each reply is a legal document of its own. */
  lemma ReplyIsLegal(max: Limit, r: Reply)
    requires max >= LONGEST
    ensures ItemsText(ReplyItems(r)) == ReplyText(r) && ValidItems(max, ReplyItems(r))
  {
    hide ItemsText, ValidItems, ValidItem, Serialize, Printed;
    match r
    case StreamHeader =>
      HeaderText();
      HeaderValid(max);
    case StreamEnd => EndIsLegal(max);
    case RestartError =>
      RestartItemsText();
      RestartValid(max);
    case _ =>
      NodeGood(max, r);
      NodeIsLegal(max, ReplyNode(r));
  }

  lemma EndIsLegal(max: Limit)
    requires max >= LONGEST
    ensures ItemsText([] + [Close("", STREAM)]) == END && ValidItems(max, [] + [Close("", STREAM)])
  {
    AppendClose([], "", STREAM);
    assert ItemsText([]) + ("" + END) == END;
    RestartNames(max);
    CloseValid(max, "", STREAM);
    ValidSnoc(max, [], Close("", STREAM));
  }

  lemma NodeIsLegal(max: Limit, n: Node)
    requires n.TagNode? && IsGood(max, n)
    ensures ItemsText(Printed(n).items) == Serialize(n) && ValidItems(max, Printed(n).items)
  {
    PrintedDocument(max, n);
    assert ItemsText(Printed(n).items) + "" == ItemsText(Printed(n).items);
    hide Serialize, ItemsText, Printed;
  }

  ghost function LogItems(h: seq<Reply>): seq<Item> {
    if h == [] then [] else LogItems(h[..|h| - 1]) + ReplyItems(h[|h| - 1])
  }

  lemma {:induction false} ItemsTextConcat(a: seq<Item>, b: seq<Item>)
    ensures ItemsText(a + b) == ItemsText(a) + ItemsText(b)
    decreases |b|
  {
    if b == [] {
      assert a + b == a;
    } else {
      var front, last := b[..|b| - 1], b[|b| - 1];
      ItemsTextConcat(a, front);
      SplitLast(a, b);
      hide ItemsText, MarkupText;
      ItemsSnoc(3, a + front, last);
      ItemsSnoc(3, front, last);
      Associate(ItemsText(a), ItemsText(front), last.text);
      Associate(ItemsText(a), ItemsText(front) + last.text, MarkupText(last.markup));
    }
  }

  lemma SplitLast<T>(a: seq<T>, b: seq<T>)
    requires b != []
    ensures a + b == (a + b[..|b| - 1]) + [b[|b| - 1]] && b[..|b| - 1] + [b[|b| - 1]] == b
  {}

  lemma {:induction false} ItemsTokensConcat(max: Limit, a: seq<Item>, b: seq<Item>)
    ensures ItemsTokens(max, a + b) == ItemsTokens(max, a) + ItemsTokens(max, b)
    decreases |b|
  {
    if b == [] {
      assert a + b == a;
    } else {
      var front, last := b[..|b| - 1], b[|b| - 1];
      ItemsTokensConcat(max, a, front);
      SplitLast(a, b);
      hide ItemsTokens, MarkupTokens, TextRunTokens;
      ItemsSnoc(max, a + front, last);
      ItemsSnoc(max, front, last);
      var x, y := TextRunTokens(max, last.text), MarkupTokens(max, last.markup);
      Associate(ItemsTokens(max, a), ItemsTokens(max, front), x);
      Associate(ItemsTokens(max, a), ItemsTokens(max, front) + x, y);
    }
  }

  lemma ValidConcat(max: Limit, a: seq<Item>, b: seq<Item>)
    requires ValidItems(max, a) && ValidItems(max, b)
    ensures ValidItems(max, a + b)
  {
    hide ValidItem;
  }

  /** The tokens a client reads from one reply. */
  ghost function ReplyTokens(max: Limit, r: Reply): seq<XmlToken> {
    ItemsTokens(max, ReplyItems(r))
  }

  ghost function LogTokens(max: Limit, h: seq<Reply>): seq<XmlToken> {
    if h == [] then [] else LogTokens(max, h[..|h| - 1]) + ReplyTokens(max, h[|h| - 1])
  }

  lemma {:induction false} LogIsLegal(max: Limit, h: seq<Reply>)
    requires max >= LONGEST
    ensures ItemsText(LogItems(h)) == LogText(h) && ValidItems(max, LogItems(h))
    ensures ItemsTokens(max, LogItems(h)) == LogTokens(max, h)
    decreases |h|
  {
    if h != [] {
      var front, last := h[..|h| - 1], h[|h| - 1];
      LogIsLegal(max, front);
      ReplyIsLegal(max, last);
      hide ItemsText, ItemsTokens, ValidItems, ReplyItems, ReplyText;
      ItemsTextConcat(LogItems(front), ReplyItems(last));
      ItemsTokensConcat(max, LogItems(front), ReplyItems(last));
      ValidConcat(max, LogItems(front), ReplyItems(last));
    }
  }

  /**
   * Whatever a session replies, in whatever pieces it arrives, a tokenizer of this repository reads
   * it without error as the tokens of the replies one after the other, and is left between lexemes.
   */
  lemma RepliesAreRead(max: Limit, h: seq<Reply>, chunks: seq<string>)
    requires max >= LONGEST && Join(chunks) == LogText(h)
    ensures var m := RunChunks(max, START, chunks);
            && m.error == NoError && m.errors == [] && m.state == State.Text && m.buffer == ""
            && m.tokens == LogTokens(max, h)
  {
    LogIsLegal(max, h);
    var d := Document(LogItems(h), "");
    hide ItemsText, ItemsTokens, ValidItems, LogItems, LogText, LogTokens, Run;
    assert DocumentText(d) == ItemsText(d.items) + "" == LogText(h);
    ChunkIndependence(max, START, chunks);
    DocumentRun(max, d);
    assert TextTokens(FullBlocks("", max)) == [];
  }

  /** Of a reply built as a tree these are the tree's own tokens. */
  lemma TreeReplyTokens(max: Limit, r: Reply)
    requires max >= LONGEST && r in {Features, Proceed, BadFormatError, TlsRequiredError, InternalError}
    ensures ReplyTokens(max, r) == TreeTokens(max, ReplyNode(r))
  {
    NodeGood(max, r);
    PrintedDocument(max, ReplyNode(r));
  }
}
