/**
 * The language the tokenizer reads, written as a grammar: what each lexeme looks like, which ones
 * are legal, and which tokens they denote. Nothing here mentions the machine's states or buffers.
 */
module Grammar {
  import opened Characters
  import opened Sequences
  import opened Tokens

  /** `before name beforeEquals = afterEquals "value"`; the quote may also be an apostrophe. */
  datatype Attribute = Attribute(
    before: string, name: string, beforeEquals: string, afterEquals: string, quote: char, value: string)

  /** `<name attributes` or `<?name attributes`. */
  datatype Head = Head(isDeclaration: bool, name: string, attributes: seq<Attribute>)

  datatype Markup =
    | Element(head: Head, space: string, isEmpty: bool)
    | EndTag(name: string, space: string)
    | Comment(body: string)
    | CData(body: string)

  /** A run of character data, possibly empty, and the markup that ends it. */
  datatype Item = Item(text: string, markup: Markup)

  /** Character data may follow the last markup. */
  datatype Document = Document(items: seq<Item>, text: string)

  // ----- what the lexemes look like

  function AttributeText(a: Attribute): string {
    a.before + a.name + a.beforeEquals + "=" + a.afterEquals + [a.quote] + a.value + [a.quote]
  }

  function AttributesText(attributes: seq<Attribute>): string {
    if attributes == [] then ""
    else AttributesText(attributes[..|attributes| - 1]) + AttributeText(attributes[|attributes| - 1])
  }

  function Opening(isDeclaration: bool): string {
    if isDeclaration then "<?" else "<"
  }

  function HeadText(h: Head): string {
    Opening(h.isDeclaration) + h.name + AttributesText(h.attributes)
  }

  function Ending(h: Head, isEmpty: bool): string {
    if h.isDeclaration then "?>" else if isEmpty then "/>" else ">"
  }

  function MarkupText(markup: Markup): string {
    match markup
    case Element(head, space, isEmpty) => HeadText(head) + space + Ending(head, isEmpty)
    case EndTag(name, space) => "</" + name + space + ">"
    case Comment(body) => "<!--" + body + "-->"
    case CData(body) => "<![CDATA[" + body + "]]>"
  }

  function ItemsText(items: seq<Item>): string {
    if items == [] then ""
    else
      var last := items[|items| - 1];
      ItemsText(items[..|items| - 1]) + last.text + MarkupText(last.markup)
  }

  function DocumentText(d: Document): string {
    ItemsText(d.items) + d.text
  }

  // ----- which ones are legal

  predicate ValidName(max: Limit, name: string) {
    0 < |name| <= max && AllName(name)
  }

  predicate IsQuote(c: char) {
    c == '\'' || c == '"'
  }

  predicate ValidAttribute(max: Limit, a: Attribute) {
    && AllSpace(a.before) && ValidName(max, a.name) && AllSpace(a.beforeEquals) && AllSpace(a.afterEquals)
    && IsQuote(a.quote) && a.quote !in a.value && |a.value| <= max
  }

  /** White space must separate the first attribute from the name, but not one attribute from the next. */
  predicate ValidHead(max: Limit, h: Head) {
    && ValidName(max, h.name)
    && (forall i | 0 <= i < |h.attributes| :: ValidAttribute(max, h.attributes[i]))
    && (h.attributes != [] ==> h.attributes[0].before != "")
  }

  /** A closing tag's name may be missing when white space stands before the `>`. */
  predicate ValidMarkup(max: Limit, markup: Markup) {
    match markup
    case Element(head, space, isEmpty) =>
      ValidHead(max, head) && AllSpace(space) && (head.isDeclaration ==> !isEmpty)
    case EndTag(name, space) =>
      AllName(name) && |name| <= max && AllSpace(space) && name + space != ""
    case Comment(body) => !Contains(body + "--", "-->") && |body| + 2 <= max
    case CData(body) => !Contains(body + "]]", "]]>")
  }

  predicate ValidText(text: string) {
    '<' !in text
  }

  predicate ValidItem(max: Limit, item: Item) {
    ValidText(item.text) && ValidMarkup(max, item.markup)
  }

  predicate ValidItems(max: Limit, items: seq<Item>) {
    forall i | 0 <= i < |items| :: ValidItem(max, items[i])
  }

  predicate ValidDocument(max: Limit, d: Document) {
    ValidItems(max, d.items) && ValidText(d.text)
  }

  // ----- which tokens they denote

  /** A repeated attribute keeps its last value. */
  function AttributeMap(attributes: seq<Attribute>): map<string, string> {
    if attributes == [] then map[]
    else
      var last := attributes[|attributes| - 1];
      AttributeMap(attributes[..|attributes| - 1])[last.name := last.value]
  }

  function MarkupTokens(max: Limit, markup: Markup): seq<XmlToken> {
    match markup
    case Element(head, _, isEmpty) =>
      var kind :=
        if head.isDeclaration then TokenType.Declaration
        else if isEmpty then TokenType.EmptyTag else TokenType.OpenTag;
      [XmlToken(kind, head.name, AttributeMap(head.attributes))]
    case EndTag(name, _) => [XmlToken(TokenType.CloseTag, name, map[])]
    case Comment(body) => [XmlToken(TokenType.Comment, body, map[])]
    case CData(body) => TextTokens(Blocks(body, max - 2))
  }

  function TextRunTokens(max: Limit, text: string): seq<XmlToken> {
    TextTokens(Blocks(text, max))
  }

  function ItemsTokens(max: Limit, items: seq<Item>): seq<XmlToken> {
    if items == [] then []
    else
      var last := items[|items| - 1];
      ItemsTokens(max, items[..|items| - 1]) + TextRunTokens(max, last.text) + MarkupTokens(max, last.markup)
  }

  /** Text after the last markup is reported in full blocks; the rest waits for more input. */
  function DocumentTokens(max: Limit, d: Document): seq<XmlToken> {
    ItemsTokens(max, d.items) + TextTokens(FullBlocks(d.text, max))
  }

  // ----- appending one item

  lemma ItemsSnoc(max: Limit, items: seq<Item>, item: Item)
    ensures ItemsText(items + [item]) == ItemsText(items) + item.text + MarkupText(item.markup)
    ensures ItemsTokens(max, items + [item]) ==
            ItemsTokens(max, items) + TextRunTokens(max, item.text) + MarkupTokens(max, item.markup)
  {
    assert (items + [item])[..|items|] == items;
  }

  lemma AttributesSnoc(attributes: seq<Attribute>, a: Attribute)
    ensures AttributesText(attributes + [a]) == AttributesText(attributes) + AttributeText(a)
    ensures AttributeMap(attributes + [a]) == AttributeMap(attributes)[a.name := a.value]
  {
    assert (attributes + [a])[..|attributes|] == attributes;
  }
}
