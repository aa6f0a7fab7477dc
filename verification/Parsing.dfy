/**
 * Input read so far as grammar lexemes plus one lexeme in progress, and how one more byte changes
 * it. This is the bridge between the grammar and the machine: `Describes` says which machine
 * configurations a parse stands for.
 */
module Parsing {
  import opened Characters
  import opened Sequences
  import opened Tokens
  import opened Machine
  import opened Grammar

  /** The markup in progress. */
  datatype Partial =
    | NoMarkup
    | Opened
    | InName(isDeclaration: bool, name: string)
    | InBody(head: Head, space: string)
    | InAttributeName(head: Head, space: string, name: string)
    | AfterAttributeName(head: Head, space: string, name: string, beforeEquals: string)
    | BeforeValue(head: Head, space: string, name: string, beforeEquals: string, afterEquals: string)
    | InValue(head: Head, attribute: Attribute)
    | Closing(head: Head, space: string)
    | InEndName(name: string)
    | InEndBody(name: string, space: string)
    | InSpecial(prefix: string)
    | InComment(body: string)
    | InCData(body: string)

  datatype Parse = Parse(items: seq<Item>, text: string, partial: Partial)

  const NOTHING := Parse([], "", NoMarkup)

  function UnclosedValue(a: Attribute): string {
    a.before + a.name + a.beforeEquals + "=" + a.afterEquals + [a.quote] + a.value
  }

  function PartialText(p: Partial): string {
    match p
    case NoMarkup => ""
    case Opened => "<"
    case InName(isDeclaration, name) => Opening(isDeclaration) + name
    case InBody(head, space) => HeadText(head) + space
    case InAttributeName(head, space, name) => HeadText(head) + (space + name)
    case AfterAttributeName(head, space, name, beforeEquals) => HeadText(head) + (space + name + beforeEquals)
    case BeforeValue(head, space, name, beforeEquals, afterEquals) =>
      HeadText(head) + (space + name + beforeEquals + "=" + afterEquals)
    case InValue(head, attribute) => HeadText(head) + UnclosedValue(attribute)
    case Closing(head, space) => HeadText(head) + space + if head.isDeclaration then "?" else "/"
    case InEndName(name) => "</" + name
    case InEndBody(name, space) => "</" + name + space
    case InSpecial(prefix) => "<!" + prefix
    case InComment(body) => "<!--" + body
    case InCData(body) => "<![CDATA[" + body
  }

  function ParseText(s: Parse): string {
    ItemsText(s.items) + s.text + PartialText(s.partial)
  }

  /** A head after which attributes may follow: white space or an attribute has been read. */
  predicate ValidSpaced(max: Limit, head: Head, space: string) {
    ValidHead(max, head) && AllSpace(space) && (head.attributes == [] ==> space != "")
  }

  predicate ValidPartial(max: Limit, p: Partial) {
    match p
    case NoMarkup => true
    case Opened => true
    case InName(isDeclaration, name) => AllName(name) && |name| <= max && (!isDeclaration ==> name != "")
    case InBody(head, space) => ValidSpaced(max, head, space)
    case InAttributeName(head, space, name) => ValidSpaced(max, head, space) && ValidName(max, name)
    case AfterAttributeName(head, space, name, beforeEquals) =>
      ValidSpaced(max, head, space) && ValidName(max, name) && AllSpace(beforeEquals) && beforeEquals != ""
    case BeforeValue(head, space, name, beforeEquals, afterEquals) =>
      ValidSpaced(max, head, space) && ValidName(max, name) && AllSpace(beforeEquals) && AllSpace(afterEquals)
    case InValue(head, attribute) => ValidSpaced(max, head, attribute.before) && ValidAttribute(max, attribute)
    case Closing(head, space) => ValidHead(max, head) && AllSpace(space)
    case InEndName(name) => AllName(name) && |name| <= max
    case InEndBody(name, space) => AllName(name) && |name| <= max && AllSpace(space) && space != ""
    case InSpecial(prefix) => prefix < "--" || prefix < CDATA_PREFIX
    case InComment(body) => !Contains(body, "-->") && |body| <= max
    case InCData(body) => !Contains(body, "]]>")
  }

  predicate ValidParse(max: Limit, s: Parse) {
    ValidItems(max, s.items) && ValidText(s.text) && ValidPartial(max, s.partial)
  }

  // ----- one more byte

  datatype Outcome = More(partial: Partial) | Done(markup: Markup) | Bad(error: TokenizationError)

  function ExtendName(max: Limit, isDeclaration: bool, name: string, c: char): Outcome {
    var head := Head(isDeclaration, name, []);
    if IsNameChar(c) then
      if |name| == max then Bad(BufferSizeExhausted) else More(InName(isDeclaration, name + [c]))
    else if name == "" then Bad(MalformedInput)
    else if IsSpace(c) then More(InBody(head, [c]))
    else if isDeclaration then
      if c == '?' then More(Closing(head, "")) else Bad(MalformedInput)
    else if c == '>' then Done(Element(head, "", false))
    else if c == '/' then More(Closing(head, ""))
    else Bad(MalformedInput)
  }

  function ExtendBody(head: Head, space: string, c: char): Outcome {
    if IsSpace(c) then More(InBody(head, space + [c]))
    else if IsNameChar(c) then More(InAttributeName(head, space, [c]))
    else if c == '>' && !head.isDeclaration then Done(Element(head, space, false))
    else if c == if head.isDeclaration then '?' else '/' then More(Closing(head, space))
    else Bad(MalformedInput)
  }

  function ExtendAttributeName(max: Limit, head: Head, space: string, name: string, c: char): Outcome {
    if IsNameChar(c) then
      if |name| == max then Bad(BufferSizeExhausted) else More(InAttributeName(head, space, name + [c]))
    else if IsSpace(c) then More(AfterAttributeName(head, space, name, [c]))
    else if c == '=' then More(BeforeValue(head, space, name, "", ""))
    else Bad(MalformedInput)
  }

  function ExtendValue(max: Limit, head: Head, a: Attribute, c: char): Outcome {
    if c == a.quote then More(InBody(head.(attributes := head.attributes + [a]), ""))
    else if |a.value| == max then Bad(BufferSizeExhausted)
    else More(InValue(head, a.(value := a.value + [c])))
  }

  function ExtendEndName(max: Limit, name: string, c: char): Outcome {
    if IsNameChar(c) then
      if |name| == max then Bad(BufferSizeExhausted) else More(InEndName(name + [c]))
    else if IsSpace(c) then More(InEndBody(name, [c]))
    else if c == '>' && name != "" then Done(EndTag(name, ""))
    else Bad(MalformedInput)
  }

  function ExtendSpecial(prefix: string, c: char): Outcome {
    var longer := prefix + [c];
    if longer == "--" then More(InComment(""))
    else if longer == CDATA_PREFIX then More(InCData(""))
    else if longer <= "--" || longer <= CDATA_PREFIX then More(InSpecial(longer))
    else Bad(MalformedInput)
  }

  function ExtendComment(max: Limit, body: string, c: char): Outcome {
    var longer := body + [c];
    if EndsWith(longer, "-->") then Done(Markup.Comment(longer[..|longer| - 3]))
    else if |body| == max then Bad(BufferSizeExhausted)
    else More(InComment(longer))
  }

  function ExtendCData(body: string, c: char): Outcome {
    var longer := body + [c];
    if EndsWith(longer, "]]>") then Done(Markup.CData(longer[..|longer| - 3])) else More(InCData(longer))
  }

  function ExtendOpened(c: char): Outcome {
    if c == '/' then More(InEndName(""))
    else if c == '?' then More(InName(true, ""))
    else if c == '!' then More(InSpecial(""))
    else if IsNameChar(c) then More(InName(false, [c]))
    else Bad(MalformedInput)
  }

  /** How markup in progress continues with `c`. */
  function Extend(max: Limit, p: Partial, c: char): Outcome
    requires p != NoMarkup
  {
    match p
    case Opened => ExtendOpened(c)
    case InName(isDeclaration, name) => ExtendName(max, isDeclaration, name, c)
    case InBody(head, space) => ExtendBody(head, space, c)
    case InAttributeName(head, space, name) => ExtendAttributeName(max, head, space, name, c)
    case AfterAttributeName(head, space, name, beforeEquals) =>
      if IsSpace(c) then More(AfterAttributeName(head, space, name, beforeEquals + [c]))
      else if c == '=' then More(BeforeValue(head, space, name, beforeEquals, ""))
      else Bad(MalformedInput)
    case BeforeValue(head, space, name, beforeEquals, afterEquals) =>
      if IsSpace(c) then More(BeforeValue(head, space, name, beforeEquals, afterEquals + [c]))
      else if IsQuote(c) then More(InValue(head, Attribute(space, name, beforeEquals, afterEquals, c, "")))
      else Bad(MalformedInput)
    case InValue(head, attribute) => ExtendValue(max, head, attribute, c)
    case Closing(head, space) =>
      if c == '>' then Done(Element(head, space, !head.isDeclaration)) else Bad(MalformedInput)
    case InEndName(name) => ExtendEndName(max, name, c)
    case InEndBody(name, space) =>
      if IsSpace(c) then More(InEndBody(name, space + [c]))
      else if c == '>' then Done(EndTag(name, space))
      else Bad(MalformedInput)
    case InSpecial(prefix) => ExtendSpecial(prefix, c)
    case InComment(body) => ExtendComment(max, body, c)
    case InCData(body) => ExtendCData(body, c)
  }

  datatype ParseResult = Parsed(parse: Parse) | Rejected(error: TokenizationError)

  function ExtendParse(max: Limit, s: Parse, c: char): ParseResult {
    if s.partial == NoMarkup then
      Parsed(if c == '<' then s.(partial := Opened) else s.(text := s.text + [c]))
    else
      match Extend(max, s.partial, c)
      case More(p) => Parsed(s.(partial := p))
      case Done(markup) => Parsed(Parse(s.items + [Item(s.text, markup)], "", NoMarkup))
      case Bad(e) => Rejected(e)
  }

  // ----- which configurations a parse stands for

  function StateOf(p: Partial): State {
    match p
    case NoMarkup => State.Text
    case Opened => State.AfterOpen
    case InName(isDeclaration, _) => if isDeclaration then State.DeclarationName else State.StartTagName
    case InBody(head, _) => if head.isDeclaration then State.DeclarationBody else State.StartTagBody
    case InAttributeName(head, _, _) =>
      if head.isDeclaration then State.DeclarationAttributeName else State.AttributeName
    case AfterAttributeName(head, _, _, _) =>
      if head.isDeclaration then State.DeclarationAttributeAfterName else State.AttributeAfterName
    case BeforeValue(head, _, _, _, _) =>
      if head.isDeclaration then State.DeclarationAttributeValueStart else State.AttributeValueStart
    case InValue(head, _) =>
      if head.isDeclaration then State.DeclarationAttributeValue else State.AttributeValue
    case Closing(head, _) => if head.isDeclaration then State.DeclarationQuestion else State.SelfClosing
    case InEndName(_) => State.EndTagName
    case InEndBody(_, _) => State.EndTagBody
    case InSpecial(_) => State.Special
    case InComment(_) => State.Comment
    case InCData(_) => State.CData
  }

  /** CDATA content that can no longer be part of the terminator: all but the last two bytes. */
  function Settled(body: string): string {
    if |body| < 2 then "" else body[..|body| - 2]
  }

  function Unsettled(body: string): string {
    if |body| < 2 then body else body[|body| - 2..]
  }

  /** The buffer inside CDATA: what is not yet a full block, and the two bytes held back. */
  function CDataBuffer(max: Limit, body: string): string {
    Leftover(Settled(body), max - 2) + Unsettled(body)
  }

  function CDataTokens(max: Limit, body: string): seq<XmlToken> {
    TextTokens(FullBlocks(Settled(body), max - 2))
  }

  function HeadToken(head: Head): XmlToken {
    XmlToken(if head.isDeclaration then TokenType.Declaration else TokenType.OpenTag, head.name,
             AttributeMap(head.attributes))
  }

  /** The fields that matter in each state; the others hold leftovers that are never read again. */
  predicate FieldsMatch(max: Limit, text: string, p: Partial, m: Config) {
    match p
    case NoMarkup => m.buffer == Leftover(text, max)
    case Opened => m.buffer == ""
    case InName(isDeclaration, name) =>
      m.buffer == name && m.currentToken == HeadToken(Head(isDeclaration, "", []))
    case InBody(head, _) => m.buffer == "" && m.currentToken == HeadToken(head)
    case InAttributeName(head, _, name) => m.buffer == name && m.currentToken == HeadToken(head)
    case AfterAttributeName(head, _, name, _) =>
      m.buffer == "" && m.attributeName == name && m.currentToken == HeadToken(head)
    case BeforeValue(head, _, name, _, _) =>
      m.buffer == "" && m.attributeName == name && m.currentToken == HeadToken(head)
    case InValue(head, a) =>
      m.buffer == a.value && m.attributeName == a.name && m.quote == a.quote && m.currentToken == HeadToken(head)
    case Closing(head, _) => m.buffer == "" && m.currentToken == HeadToken(head)
    case InEndName(name) => m.buffer == name && m.currentToken == XmlToken(TokenType.CloseTag, "", map[])
    case InEndBody(name, _) => m.buffer == "" && m.currentToken == XmlToken(TokenType.CloseTag, name, map[])
    case InSpecial(prefix) => m.specialPrefix == prefix && m.buffer == ""
    case InComment(body) => m.buffer == body
    case InCData(body) => m.buffer == CDataBuffer(max, body)
  }

  /** The tokens reported so far; a text run in progress is reported in full blocks only. */
  function ParseTokens(max: Limit, s: Parse): seq<XmlToken> {
    match s.partial
    case NoMarkup => ItemsTokens(max, s.items) + TextTokens(FullBlocks(s.text, max))
    case InCData(body) => ItemsTokens(max, s.items) + TextRunTokens(max, s.text) + CDataTokens(max, body)
    case _ => ItemsTokens(max, s.items) + TextRunTokens(max, s.text)
  }

  /** `m` is the configuration of a tokenizer that has read exactly `ParseText(s)`. */
  predicate Describes(max: Limit, s: Parse, m: Config) {
    && ValidParse(max, s)
    && m.error == NoError && m.errors == []
    && m.state == StateOf(s.partial)
    && FieldsMatch(max, s.text, s.partial, m)
    && m.tokens == ParseTokens(max, s)
  }
}
