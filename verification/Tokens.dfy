/** The tokens and errors an observer of the tokenizer receives, and the limit on what they hold. */
module Tokens {
  /** The buffer limit. The macro defaults to 999999; CDATA needs room for its terminator. */
  type Limit = n: nat | n >= 3 witness 999999

  datatype TokenType = OpenTag | CloseTag | EmptyTag | Declaration | TextContent | Comment

  datatype XmlToken = XmlToken(kind: TokenType, content: string, attributes: map<string, string>)

  datatype TokenizationError = NoError | BufferSizeExhausted | MalformedInput

  function TextToken(text: string): XmlToken {
    XmlToken(TokenType.TextContent, text, map[])
  }

  /** One text token for each piece. */
  function TextTokens(pieces: seq<string>): (ts: seq<XmlToken>)
    ensures |ts| == |pieces|
    ensures forall i | 0 <= i < |ts| :: ts[i] == TextToken(pieces[i])
  {
    seq(|pieces|, i requires 0 <= i < |pieces| => TextToken(pieces[i]))
  }
}
