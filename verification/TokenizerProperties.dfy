/** Consequences of recognition: bounds, exact comments and CDATA, early errors, matching sub-machines. */
module TokenizerProperties {
  import opened Characters
  import opened Sequences
  import opened Tokens
  import opened Machine
  import opened Grammar
  import opened Parsing
  import opened Progress
  import opened Simulation
  import opened Inversion
  import opened Recognition

  // ----- what holds of every reachable configuration

  /** Well-formed tokens: names are made of name characters, and only openings carry attributes. */
  predicate WellFormed(max: Limit, t: XmlToken) {
    match t.kind
    case TextContent => 0 < |t.content| <= max && t.attributes == map[]
    case Comment => |t.content| + 2 <= max && t.attributes == map[]
    case CloseTag => AllName(t.content) && |t.content| <= max && t.attributes == map[]
    case _ => ValidName(max, t.content)
  }

  predicate AllWellFormed(max: Limit, ts: seq<XmlToken>) {
    forall i | 0 <= i < |ts| :: WellFormed(max, ts[i])
  }

  lemma TextWellFormed(max: Limit, pieces: seq<string>)
    requires forall i | 0 <= i < |pieces| :: 0 < |pieces[i]| <= max
    ensures AllWellFormed(max, TextTokens(pieces))
  {}

  lemma MarkupWellFormed(max: Limit, markup: Markup)
    requires ValidMarkup(max, markup)
    ensures AllWellFormed(max, MarkupTokens(max, markup))
  {
    if markup.CData? {
      TextWellFormed(max, Blocks(markup.body, max - 2));
    }
  }

  lemma WellFormedConcat(max: Limit, a: seq<XmlToken>, b: seq<XmlToken>)
    requires AllWellFormed(max, a) && AllWellFormed(max, b)
    ensures AllWellFormed(max, a + b)
  {
    hide WellFormed;
  }

  lemma {:induction false} ItemsWellFormed(max: Limit, items: seq<Item>)
    requires ValidItems(max, items)
    ensures AllWellFormed(max, ItemsTokens(max, items))
    decreases |items|
  {
    if items != [] {
      var item, before := items[|items| - 1], ItemsTokens(max, items[..|items| - 1]);
      assert ValidItem(max, item);
      ItemsWellFormed(max, items[..|items| - 1]);
      TextWellFormed(max, Blocks(item.text, max));
      MarkupWellFormed(max, item.markup);
      hide AllWellFormed, MarkupTokens;
      WellFormedConcat(max, before, TextRunTokens(max, item.text));
      WellFormedConcat(max, before + TextRunTokens(max, item.text), MarkupTokens(max, item.markup));
    }
  }

  lemma DescribedTokens(max: Limit, s: Parse)
    requires ValidParse(max, s)
    ensures AllWellFormed(max, ParseTokens(max, s))
  {
    var items := ItemsTokens(max, s.items);
    ItemsWellFormed(max, s.items);
    TextWellFormed(max, FullBlocks(s.text, max));
    TextWellFormed(max, Blocks(s.text, max));
    WellFormedConcat(max, items, TextTokens(FullBlocks(s.text, max)));
    WellFormedConcat(max, items, TextRunTokens(max, s.text));
    if s.partial.InCData? {
      TextWellFormed(max, FullBlocks(Settled(s.partial.body), max - 2));
      WellFormedConcat(max, items + TextRunTokens(max, s.text), CDataTokens(max, s.partial.body));
    }
    hide AllWellFormed, ItemsTokens, Blocks, FullBlocks, Settled;
  }

  lemma DescribedInvariant(max: Limit, s: Parse, m: Config)
    requires Describes(max, s, m)
    ensures AllWellFormed(max, m.tokens) && |m.buffer| <= max
    ensures m.state == State.StartTagName ==> m.buffer != ""
  {
    DescribedTokens(max, s);
    hide AllWellFormed, ParseTokens, ValidItems;
  }

  /** A step that fails reports no token and adds at most one byte to the buffer. */
  lemma FailingStep(max: Limit, m: Config, c: char)
    requires m.error == NoError && Step(max, m, c).error != NoError
    ensures Step(max, m, c).tokens == m.tokens && |Step(max, m, c).buffer| <= |m.buffer| + 1
  {
    match m.state
    case Text =>
    case AfterOpen =>
    case StartTagName =>
    case AttributeName =>
    case DeclarationName =>
    case EndTagName =>
    case DeclarationAttributeName =>
    case Comment =>
    case _ =>
  }

  /**
   * The buffer stays within the limit while there is no error and passes it by one byte at most;
   * the empty-name checks of START_TAG_NAME never fire; every token reported is well-formed.
   */
  lemma {:induction false} ReachableInvariant(max: Limit, w: string)
    ensures var m := Run(max, START, w);
            && AllWellFormed(max, m.tokens)
            && |m.buffer| <= max + 1
            && (m.error == NoError ==> |m.buffer| <= max)
            && (m.state == State.StartTagName && m.error == NoError ==> m.buffer != "")
    decreases |w|
  {
    hide Step, AllWellFormed, Describes;
    var m := Run(max, START, w);
    if m.error == NoError {
      var s := ReadingOf(max, w);
      DescribedInvariant(max, s, m);
    } else if w != "" {
      var v, c := w[..|w| - 1], w[|w| - 1];
      Last(w);
      RunSnoc(max, START, v, c);
      ReachableInvariant(max, v);
      var n := Run(max, START, v);
      if n.error == NoError {
        FailingStep(max, n, c);
      } else {
        ErrorLatches(max, n, [c]);
        RunConcat(max, START, v, [c]);
      }
    }
  }

  // ----- comments and CDATA sections

  lemma CommentParse(max: Limit, d: Document, x: string) returns (s: Parse)
    requires ValidDocument(max, d) && |x| <= max && !Contains(x, "-->")
    ensures ValidParse(max, s) && ParseText(s) == DocumentText(d) + "<!--" + x
    ensures s == Parse(d.items, d.text, InComment(x))
  {
    s := Parse(d.items, d.text, InComment(x));
    Associate(DocumentText(d), "<!--", x);
  }

  /**
   * Comment exactness. A comment whose terminator has not come within `max` bytes is still open
   * and error-free; one byte more without a terminator and the buffer error is raised.
   */
  lemma CommentTooLong(max: Limit, d: Document, x: string)
    requires ValidDocument(max, d) && |x| == max + 1 && !Contains(x, "-->")
    ensures Run(max, START, DocumentText(d) + "<!--" + x[..max]).error == NoError
    ensures Run(max, START, DocumentText(d) + "<!--" + x).error == BufferSizeExhausted
  {
    var y, c, w := x[..max], x[max], DocumentText(d) + "<!--";
    assert x == y + [c];
    ContainsPrefix(x, max, "-->");
    var s := CommentParse(max, d, y);
    NotEnding(x, "-->");
    assert ExtendParse(max, s, c) == Rejected(BufferSizeExhausted);
    Associate(w, y, [c]);
    hide Run, Step, ExtendParse, ParseText, DocumentText, Contains, EndsWith, Describes;
    Completeness(max, s);
    ParseAgrees(max, s, Run(max, START, w + y), c);
    CompletedHasNoError(max, s, Run(max, START, w + y));
    RunSnoc(max, START, w + y, c);
  }

  lemma CompletedHasNoError(max: Limit, s: Parse, m: Config)
    requires Describes(max, s, m)
    ensures m.error == NoError
  {}

  function AppendMarkup(d: Document, markup: Markup): Document {
    Document(d.items + [Item(d.text, markup)], "")
  }

  lemma AppendMarkupText(max: Limit, d: Document, markup: Markup)
    requires ValidDocument(max, d) && ValidMarkup(max, markup)
    ensures var d' := AppendMarkup(d, markup);
            && ValidDocument(max, d') && DocumentText(d') == DocumentText(d) + MarkupText(markup)
            && DocumentTokens(max, d') ==
               ItemsTokens(max, d.items) + TextRunTokens(max, d.text) + MarkupTokens(max, markup)
  {
    var item := Item(d.text, markup);
    ItemsSnoc(max, d.items, item);
    DoneValid(max, d.items, item);
    assert TextTokens(FullBlocks("", max)) == [];
    hide MarkupText, MarkupTokens, ItemsTokens, ItemsText, TextRunTokens, ValidMarkup;
  }

  /** A comment within the limit becomes one token holding exactly the bytes before the first `-->`. */
  lemma CommentExact(max: Limit, d: Document, body: string)
    requires ValidDocument(max, d) && !Contains(body + "--", "-->") && |body| + 2 <= max
    ensures var m := Run(max, START, DocumentText(d) + ("<!--" + body + "-->"));
            && m.error == NoError
            && m.tokens == ItemsTokens(max, d.items) + TextRunTokens(max, d.text)
                           + [XmlToken(TokenType.Comment, body, map[])]
  {
    var comment := Markup.Comment(body);
    AppendMarkupText(max, d, comment);
    hide Run, ItemsTokens, ItemsText;
    DocumentRun(max, AppendMarkup(d, comment));
  }

  lemma CommentFails(max: Limit, d: Document, body: string)
    requires ValidDocument(max, d) && !Contains(body + "--", "-->") && |body| + 2 > max
    ensures Run(max, START, DocumentText(d) + "<!--" + (body + "-->")).error == BufferSizeExhausted
  {
    var w, x, z := DocumentText(d) + "<!--", (body + "-->")[..max + 1], (body + "-->")[max + 1..];
    assert x == (body + "--")[..max + 1];
    ContainsPrefix(body + "--", max + 1, "-->");
    CommentTooLong(max, d, x);
    hide Run, DocumentText, Contains;
    assert body + "-->" == x + z;
    Associate(w, x, z);
    RunConcat(max, START, w + x, z);
    ErrorLatches(max, Run(max, START, w + x), z);
  }

  lemma Bracket(a: string, open: string, body: string, close: string)
    ensures a + open + (body + close) == a + (open + body + close)
  {}

  /** A comment is read without error exactly when it leaves two bytes of the limit free. */
  lemma CommentIff(max: Limit, d: Document, body: string)
    requires ValidDocument(max, d) && !Contains(body + "--", "-->")
    ensures Run(max, START, DocumentText(d) + ("<!--" + body + "-->")).error ==
            if |body| + 2 <= max then NoError else BufferSizeExhausted
  {
    hide Run, DocumentText, Contains, ValidDocument;
    if |body| + 2 <= max {
      CommentExact(max, d, body);
    } else {
      CommentFails(max, d, body);
      Bracket(DocumentText(d), "<!--", body, "-->");
    }
  }

  function Contents(ts: seq<XmlToken>): string {
    if ts == [] then "" else ts[0].content + Contents(ts[1..])
  }

  lemma {:induction false} ContentsJoin(pieces: seq<string>)
    ensures Contents(TextTokens(pieces)) == Join(pieces)
  {
    if pieces != [] {
      ContentsJoin(pieces[1..]);
      assert TextTokens(pieces)[1..] == TextTokens(pieces[1..]);
    }
  }

  lemma SectionTokens(max: Limit, body: string)
    ensures var ts := MarkupTokens(max, Markup.CData(body));
            && Contents(ts) == body
            && forall i | 0 <= i < |ts| :: ts[i].kind == TokenType.TextContent && 0 < |ts[i].content| <= max - 2
  {
    ContentsJoin(Blocks(body, max - 2));
    BlocksJoin(body, max - 2);
  }

  /**
   * CDATA flushing refines the unbounded reading: of any length, the text tokens of a section join
   * to the bytes before the first `]]>`, each token at most two bytes short of the limit.
   */
  lemma CDataExact(max: Limit, d: Document, body: string)
    requires ValidDocument(max, d) && !Contains(body + "]]", "]]>")
    ensures var m, ts := Run(max, START, DocumentText(d) + ("<![CDATA[" + body + "]]>")),
                         MarkupTokens(max, Markup.CData(body));
            && m.error == NoError
            && m.tokens == ItemsTokens(max, d.items) + TextRunTokens(max, d.text) + ts
            && Contents(ts) == body
            && forall i | 0 <= i < |ts| :: ts[i].kind == TokenType.TextContent && 0 < |ts[i].content| <= max - 2
  {
    var section := Markup.CData(body);
    AppendMarkupText(max, d, section);
    SectionTokens(max, body);
    assert MarkupText(section) == "<![CDATA[" + body + "]]>";
    hide Run, ItemsTokens, ItemsText, MarkupTokens, Contents, TextRunTokens, DocumentText;
    DocumentRun(max, AppendMarkup(d, section));
  }

  // ----- the two attribute sub-machines

  /** The declaration's counterpart of a tag's attribute state. */
  function DeclarationState(s: State): State {
    match s
    case StartTagBody => State.DeclarationBody
    case AttributeName => State.DeclarationAttributeName
    case AttributeAfterName => State.DeclarationAttributeAfterName
    case AttributeValueStart => State.DeclarationAttributeValueStart
    case AttributeValue => State.DeclarationAttributeValue
    case _ => s
  }

  predicate InAttributes(s: State) {
    DeclarationState(s) != s
  }

  predicate Mirrors(tag: Config, declaration: Config) {
    && InAttributes(tag.state) && declaration.state == DeclarationState(tag.state)
    && tag.buffer == declaration.buffer && tag.attributeName == declaration.attributeName
    && tag.quote == declaration.quote && tag.error == declaration.error
    && tag.currentToken.attributes == declaration.currentToken.attributes
  }

  /** The byte one of the two bodies ends on. */
  predicate Terminates(s: State, c: char) {
    (s == State.StartTagBody || s == State.DeclarationBody) && (c == '>' || c == '/' || c == '?')
  }

  lemma LockstepOne(max: Limit, tag: Config, declaration: Config, c: char)
    requires Mirrors(tag, declaration) && !Terminates(tag.state, c)
    ensures Mirrors(Step(max, tag, c), Step(max, declaration, c))
  {
    match tag.state
    case StartTagBody =>
    case AttributeName =>
    case AttributeAfterName =>
    case AttributeValueStart =>
    case AttributeValue =>
  }

  /**
   * The two attribute sub-machines agree: from equal attribute maps, any input on which neither
   * body meets a terminator leaves equal maps, buffers and errors.
   */
  lemma {:induction false} Lockstep(max: Limit, tag: Config, declaration: Config, w: string)
    requires Mirrors(tag, declaration)
    requires forall i | 0 <= i < |w| :: !Terminates(Run(max, tag, w[..i]).state, w[i])
    ensures Mirrors(Run(max, tag, w), Run(max, declaration, w))
    decreases |w|
  {
    hide Step, Mirrors, Terminates;
    if w != "" {
      var v, c := w[..|w| - 1], w[|w| - 1];
      forall i | 0 <= i < |v|
        ensures !Terminates(Run(max, tag, v[..i]).state, v[i])
      {
        assert v[..i] == w[..i];
      }
      Lockstep(max, tag, declaration, v);
      LockstepOne(max, Run(max, tag, v), Run(max, declaration, v), c);
      Last(w);
      RunSnoc(max, tag, v, c);
      RunSnoc(max, declaration, v, c);
    }
  }
}
