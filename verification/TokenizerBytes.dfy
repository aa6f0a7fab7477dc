/** Which bytes the tokenizer takes for white space and for names, and which error a byte draws. */
module TokenizerBytes {
  import opened Characters
  import opened Sequences
  import opened Tokens
  import opened Machine
  import opened Grammar
  import opened Recognition

  /** Blank, tab, newline, vertical tab, form feed and carriage return. */
  predicate IsWhite(c: char) {
    c == ' ' || c == '\t' || c == '\n' || c == '\U{0B}' || c == '\U{0C}' || c == '\r'
  }

  predicate IsNameByte(c: char) {
    || 'A' <= c <= 'Z' || 'a' <= c <= 'z' || '0' <= c <= '9'
    || c == '_' || c == '-' || c == ':' || c == '.'
  }

  predicate AreWhite(s: string) {
    forall i | 0 <= i < |s| :: IsWhite(s[i])
  }

  predicate AreNameBytes(s: string) {
    forall i | 0 <= i < |s| :: IsNameByte(s[i])
  }

  lemma Classes(s: string)
    ensures AllSpace(s) <==> AreWhite(s)
    ensures AllName(s) <==> AreNameBytes(s)
  {
    assert forall c: char :: IsSpace(c) <==> IsWhite(c);
    assert forall c: char :: IsNameChar(c) <==> IsNameByte(c);
  }

  /** A lexeme on its own is read as its tokens. */
  lemma LoneRun(max: Limit, markup: Markup)
    requires ValidMarkup(max, markup)
    ensures var m := Run(max, START, MarkupText(markup));
            m.error == NoError && m.errors == [] && m.state == State.Text && m.tokens == MarkupTokens(max, markup)
  {
    LoneMarkup(max, markup);
    DocumentRun(max, Document([Item("", markup)], ""));
    hide Run, MarkupText, MarkupTokens, ValidMarkup, DocumentText, DocumentTokens;
  }

  /**
   * Between a name and the end of its tag any white space may stand, however much of it: the tag is
   * read without error as its token.
   */
  lemma SpaceAfterName(max: Limit, name: string, space: string)
    requires 0 < |name| <= max && AreNameBytes(name) && AreWhite(space)
    ensures var m := Run(max, START, "<" + name + space + "/>");
            m.errors == [] && m.state == State.Text && m.tokens == [XmlToken(TokenType.EmptyTag, name, map[])]
    ensures var m := Run(max, START, "<" + name + space + ">");
            m.errors == [] && m.state == State.Text && m.tokens == [XmlToken(TokenType.OpenTag, name, map[])]
    ensures var m := Run(max, START, "</" + name + space + ">");
            m.errors == [] && m.state == State.Text && m.tokens == [XmlToken(TokenType.CloseTag, name, map[])]
    ensures var m := Run(max, START, "<?" + name + space + "?>");
            m.errors == [] && m.state == State.Text && m.tokens == [XmlToken(TokenType.Declaration, name, map[])]
  {
    Classes(name);
    Classes(space);
    var head, declaration := Head(false, name, []), Head(true, name, []);
    Unit("<" + name);
    Unit("<?" + name);
    hide Run, AllName, AllSpace, AreNameBytes, AreWhite;
    LoneRun(max, Element(head, space, true));
    LoneRun(max, Element(head, space, false));
    LoneRun(max, EndTag(name, space));
    LoneRun(max, Element(declaration, space, false));
  }

  /** White space may stand in every place around an attribute; either quote encloses its value. */
  lemma SpaceAroundAttribute(max: Limit, name: string, key: string, value: string, quote: char,
                             s1: string, s2: string, s3: string, s4: string)
    requires 0 < |name| <= max && AreNameBytes(name) && 0 < |key| <= max && AreNameBytes(key)
    requires (quote == '\'' || quote == '"') && quote !in value && |value| <= max
    requires s1 != "" && AreWhite(s1) && AreWhite(s2) && AreWhite(s3) && AreWhite(s4)
    ensures var m := Run(max, START,
                         "<" + name + (s1 + key + s2 + "=" + s3 + [quote] + value + [quote]) + s4 + "/>");
            && m.errors == [] && m.state == State.Text
            && m.tokens == [XmlToken(TokenType.EmptyTag, name, map[key := value])]
  {
    Classes(name);
    Classes(key);
    Classes(s1);
    Classes(s2);
    Classes(s3);
    Classes(s4);
    var a := Attribute(s1, key, s2, s3, quote, value);
    Unit(AttributeText(a));
    assert [] + [a] == [a];
    AttributesSnoc([], a);
    hide Run, AllName, AllSpace, AreNameBytes, AreWhite, AttributeText, AttributesText, AttributeMap;
    LoneRun(max, Element(Head(false, name, [a]), s4, true));
  }

  /** Of a repeated attribute the last value counts. */
  lemma RepeatedAttribute(max: Limit, name: string, key: string, first: string, last: string)
    requires 0 < |name| <= max && AreNameBytes(name) && 0 < |key| <= max && AreNameBytes(key)
    requires '"' !in first && |first| <= max && '"' !in last && |last| <= max
    ensures var m := Run(max, START,
                         "<" + name + ((" " + key + "=\"" + first + "\"") + (" " + key + "=\"" + last + "\"")) + "/>");
            m.errors == [] && m.tokens == [XmlToken(TokenType.EmptyTag, name, map[key := last])]
  {
    hide *;
    Classes(name);
    Classes(key);
    var all := TwoQuoted(key, first, last);
    TwoQuotedText(key, first, last);
    TwoQuotedValid(max, name, key, first, last);
    var markup := Element(Head(false, name, all), "", true);
    OpenText(name, all);
    LoneRun(max, markup);
  }

  function TwoQuoted(key: string, first: string, last: string): seq<Attribute> {
    [Attribute(" ", key, "", "", '"', first)] + [Attribute(" ", key, "", "", '"', last)]
  }

  lemma TwoQuotedText(key: string, first: string, last: string)
    ensures AttributesText(TwoQuoted(key, first, last)) ==
            (" " + key + "=\"" + first + "\"") + (" " + key + "=\"" + last + "\"")
    ensures AttributeMap(TwoQuoted(key, first, last)) == map[key := last]
  {
    var a, b := Attribute(" ", key, "", "", '"', first), Attribute(" ", key, "", "", '"', last);
    QuotedAttribute(key, first);
    QuotedAttribute(key, last);
    Unit([a]);
    Unit(AttributeText(a));
    AttributesSnoc([], a);
    AttributesSnoc([a], b);
    hide AttributeText;
  }

  lemma TwoQuotedValid(max: Limit, name: string, key: string, first: string, last: string)
    requires 0 < |name| <= max && AllName(name) && 0 < |key| <= max && AllName(key)
    requires '"' !in first && |first| <= max && '"' !in last && |last| <= max
    ensures ValidMarkup(max, Element(Head(false, name, TwoQuoted(key, first, last)), "", true))
  {
    Classes(" ");
    Classes("");
    hide AllName;
  }

  lemma OpenText(name: string, attributes: seq<Attribute>)
    ensures var markup := Element(Head(false, name, attributes), "", true);
            && MarkupText(markup) == "<" + name + AttributesText(attributes) + "/>"
            && forall max: Limit ::
                 MarkupTokens(max, markup) == [XmlToken(TokenType.EmptyTag, name, AttributeMap(attributes))]
  {
    Unit("<" + name + AttributesText(attributes));
    hide AttributesText, AttributeMap;
  }

  lemma QuotedAttribute(key: string, value: string)
    ensures AttributeText(Attribute(" ", key, "", "", '"', value)) == " " + key + "=\"" + value + "\""
  {
    var t := " " + key;
    Unit(t);
    Unit(t + "=");
    assert t + "=" + ['"'] == t + "=\"";
  }

  // ----- where text is reported

  lemma BlocksUpTo(s: string, k: nat)
    requires 0 < |s| && k > 0
    ensures |s| < k ==> FullBlocks(s, k) == [] && Leftover(s, k) == s
    ensures |s| == k ==> FullBlocks(s, k) == [s] && Leftover(s, k) == ""
    ensures |s| <= k ==> Blocks(s, k) == [s]
    ensures |s| == k + 1 ==> Blocks(s, k) == [s[..k]] + [s[k..]]
  {
    if |s| == k { assert s[..k] == s && s[k..] == ""; }
    if |s| == k + 1 {
      if k == 1 { LastBlock(s[k..]); }
      assert FullBlocks(s[k..], k) == if k == 1 then [s[k..]] else [];
    }
  }

  lemma LastBlock(s: string)
    requires |s| == 1
    ensures FullBlocks(s, 1) == [s] && Leftover(s, 1) == ""
  {
    assert s[..1] == s && s[1..] == "";
  }

  /** Text is kept until it fills the limit, and reported at that byte. */
  lemma TextReported(max: Limit, text: string)
    requires '<' !in text && 0 < |text| <= max
    ensures var m := Run(max, START, text);
            && m.errors == []
            && (|text| < max ==> m.tokens == [] && m.buffer == text)
            && (|text| == max ==> m.tokens == [XmlToken(TokenType.TextContent, text, map[])] && m.buffer == "")
  {
    var d := Document([], text);
    DocumentRun(max, d);
    BlocksUpTo(text, max);
    assert DocumentText(d) == text;
    assert TextTokens([text]) == [TextToken(text)] && TextTokens([]) == [];
    hide Run, FullBlocks, Leftover;
  }

  /** CDATA is reported in one piece up to two bytes below the limit, and in two when it is a byte longer. */
  lemma CDataReported(max: Limit, body: string)
    requires !Contains(body + "]]", "]]>") && 0 < |body| <= max - 1
    ensures var m := Run(max, START, "<![CDATA[" + body + "]]>");
            && m.errors == []
            && (|body| <= max - 2 ==> m.tokens == [XmlToken(TokenType.TextContent, body, map[])])
            && (|body| == max - 1 ==>
                  m.tokens == [XmlToken(TokenType.TextContent, body[..max - 2], map[])] +
                              [XmlToken(TokenType.TextContent, body[max - 2..], map[])])
  {
    BlocksUpTo(body, max - 2);
    hide Run, Contains, Blocks, FullBlocks, Leftover;
    LoneRun(max, Markup.CData(body));
    assert TextTokens(Blocks(body, max - 2)) == MarkupTokens(max, Markup.CData(body));
  }

  // ----- the byte after a name

  lemma {:induction false} NameRun(max: Limit, name: string)
    requires 0 < |name| <= max && AreNameBytes(name)
    ensures Run(max, START, "<" + name) == START.(state := State.StartTagName, buffer := name)
    decreases |name|
  {
    var front, c := name[..|name| - 1], name[|name| - 1];
    assert name == front + [c];
    assert IsNameByte(c) && IsNameChar(c);
    RunSnoc(max, START, "<" + front, c);
    assert "<" + name == ("<" + front) + [c];
    if front == "" {
      assert "<" + front == "" + ['<'];
      RunSnoc(max, START, "", '<');
      assert name == [c];
    } else {
      NameRun(max, front);
    }
  }

  /** After a name a byte is part of the name, ends it, or is malformed; the buffer error is for names too long. */
  lemma ByteAfterName(max: Limit, name: string, c: char)
    requires 0 < |name| <= max && AreNameBytes(name)
    ensures var m := Run(max, START, "<" + name + [c]);
            && (m.error == MalformedInput <==> !IsNameByte(c) && !IsWhite(c) && c != '>' && c != '/')
            && (m.error == BufferSizeExhausted <==> IsNameByte(c) && |name| == max)
            && m.errors == (if m.error == NoError then [] else [m.error]) && |m.tokens| == (if c == '>' then 1 else 0)
  {
    NameRun(max, name);
    RunSnoc(max, START, "<" + name, c);
    assert IsNameChar(c) <==> IsNameByte(c);
    assert IsSpace(c) <==> IsWhite(c);
    hide IsNameChar, IsSpace, IsWhite, Run;
  }
}
