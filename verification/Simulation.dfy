/** The machine's step and the parse's step agree, byte by byte, on results and on errors. */
module Simulation {
  import opened Sequences
  import opened Tokens
  import opened Machine
  import opened Grammar
  import opened Parsing
  import opened Progress

  /** `m` carries markup in progress `p`; what it has reported does not matter here. */
  ghost predicate Carries(max: Limit, p: Partial, m: Config) {
    && p != NoMarkup && ValidPartial(max, p)
    && m.error == NoError && m.state == StateOf(p) && FieldsMatch(max, "", p, m)
  }

  /** `m'` is `m` after one byte with outcome `o`, outside CDATA: tokens appear only when markup ends. */
  ghost predicate Follows(max: Limit, m: Config, m': Config, o: Outcome) {
    match o
    case More(p) =>
      && p != NoMarkup && (p.InCData? ==> p.body == "")
      && m'.error == NoError && m'.errors == m.errors && m'.tokens == m.tokens
      && m'.state == StateOf(p) && FieldsMatch(max, "", p, m')
    case Done(markup) =>
      && m'.error == NoError && m'.errors == m.errors && m'.state == State.Text && m'.buffer == ""
      && m'.tokens == m.tokens + MarkupTokens(max, markup)
    case Bad(e) => e != NoError && m'.error == e
  }

  lemma OpenedFollows(max: Limit, p: Partial, m: Config, c: char)
    requires p.Opened? && Carries(max, p, m)
    ensures Follows(max, m, Step(max, m, c), Extend(max, p, c))
  {}

  lemma NameFollows(max: Limit, p: Partial, m: Config, c: char)
    requires p.InName? && Carries(max, p, m)
    ensures Follows(max, m, Step(max, m, c), Extend(max, p, c))
  {}

  lemma BodyFollows(max: Limit, p: Partial, m: Config, c: char)
    requires p.InBody? && Carries(max, p, m)
    ensures Follows(max, m, Step(max, m, c), Extend(max, p, c))
  {}

  lemma AttributeNameFollows(max: Limit, p: Partial, m: Config, c: char)
    requires p.InAttributeName? && Carries(max, p, m)
    ensures Follows(max, m, Step(max, m, c), Extend(max, p, c))
  {}

  lemma BeforeValueFollows(max: Limit, p: Partial, m: Config, c: char)
    requires p.AfterAttributeName? || p.BeforeValue?
    requires Carries(max, p, m)
    ensures Follows(max, m, Step(max, m, c), Extend(max, p, c))
  {}

  lemma ValueClosed(max: Limit, head: Head, a: Attribute, m: Config, body: State)
    requires FieldsMatch(max, "", InValue(head, a), m)
    ensures var m' := StepAttributeValue(max, m, a.quote, body);
            && m' == m.(currentToken := HeadToken(head.(attributes := head.attributes + [a])),
                        attributeName := "", buffer := "", state := body)
  {
    AttributesSnoc(head.attributes, a);
    hide AttributeMap;
  }

  lemma ValueFollows(max: Limit, p: Partial, m: Config, c: char)
    requires p.InValue? && Carries(max, p, m)
    ensures Follows(max, m, Step(max, m, c), Extend(max, p, c))
  {
    if c == p.attribute.quote {
      ValueClosed(max, p.head, p.attribute, m, StateOf(InBody(p.head, "")));
      hide HeadToken, ValidPartial, StepAttributeValue;
    }
  }

  lemma ClosingFollows(max: Limit, p: Partial, m: Config, c: char)
    requires p.Closing? || p.InEndName? || p.InEndBody?
    requires Carries(max, p, m)
    ensures Follows(max, m, Step(max, m, c), Extend(max, p, c))
  {}

  lemma SpecialFollows(max: Limit, p: Partial, m: Config, c: char)
    requires p.InSpecial? && Carries(max, p, m)
    ensures Follows(max, m, Step(max, m, c), Extend(max, p, c))
  {}

  lemma CommentFollows(max: Limit, p: Partial, m: Config, c: char)
    requires p.InComment? && Carries(max, p, m)
    ensures Follows(max, m, Step(max, m, c), Extend(max, p, c))
  {}

  lemma MarkupFollows(max: Limit, p: Partial, m: Config, c: char)
    requires p != NoMarkup && !p.InCData? && Carries(max, p, m)
    ensures Follows(max, m, Step(max, m, c), Extend(max, p, c))
  {
    hide Step, Extend, Follows, Carries;
    match p
    case Opened => OpenedFollows(max, p, m, c);
    case InName(_, _) => NameFollows(max, p, m, c);
    case InBody(_, _) => BodyFollows(max, p, m, c);
    case InAttributeName(_, _, _) => AttributeNameFollows(max, p, m, c);
    case AfterAttributeName(_, _, _, _) => BeforeValueFollows(max, p, m, c);
    case BeforeValue(_, _, _, _, _) => BeforeValueFollows(max, p, m, c);
    case InValue(_, _) => ValueFollows(max, p, m, c);
    case InSpecial(_) => SpecialFollows(max, p, m, c);
    case InComment(_) => CommentFollows(max, p, m, c);
    case _ => ClosingFollows(max, p, m, c);
  }

  lemma TextTokensConcat(a: seq<string>, b: seq<string>)
    ensures TextTokens(a + b) == TextTokens(a) + TextTokens(b)
  {}

  /** Two bytes are always held back, so a flush never swallows part of the terminator. */
  lemma HeldBack(max: Limit, body: string, c: char)
    ensures var b := Leftover(Settled(body), max - 2) + Unsettled(body) + [c];
            EndsWith(b, "]]>") <==> EndsWith(body + [c], "]]>")
  {
    var r, u, longer := Leftover(Settled(body), max - 2), Unsettled(body), body + [c];
    var b := r + u + [c];
    if |body| >= 2 {
      assert b[|b| - 3..] == u + [c];
      assert longer[|longer| - 3..] == u + [c];
    }
  }

  lemma CDataEnds(max: Limit, body: string, m: Config, c: char)
    requires m.state == State.CData && m.buffer == CDataBuffer(max, body)
    requires EndsWith(body + [c], "]]>")
    ensures StepCData(max, m, c) ==
            EmitText(m, Leftover(Settled(body), max - 2)).(buffer := "", state := State.Text)
  {
    HeldBack(max, body, c);
    var b := m.buffer + [c];
    assert b[..|b| - 3] == Leftover(Settled(body), max - 2);
  }

  lemma HeldBackPieces(body: string, r: string, c: char)
    requires |body| >= 2
    ensures var b := r + Unsettled(body) + [c];
            && Settled(body + [c]) == Settled(body) + [body[|body| - 2]]
            && b[..|b| - 2] == r + [body[|body| - 2]]
            && b[|b| - 2..] == Unsettled(body + [c])
            && b == r + [body[|body| - 2]] + Unsettled(body + [c])
  {
    var longer := body + [c];
    assert Unsettled(longer) == [body[|body| - 1], c];
    assert Unsettled(body) == [body[|body| - 2], body[|body| - 1]];
  }

  lemma CDataBlocks(max: Limit, body: string, c: char)
    requires |body| >= 2
    ensures var b, longer := CDataBuffer(max, body) + [c], body + [c];
            && |b| > 2
            && (|b| >= max ==>
                  && CDataTokens(max, longer) == CDataTokens(max, body) + [TextToken(b[..|b| - 2])]
                  && CDataBuffer(max, longer) == b[|b| - 2..])
            && (|b| < max ==> CDataTokens(max, longer) == CDataTokens(max, body) && CDataBuffer(max, longer) == b)
  {
    var k, d, e := max - 2, Settled(body), body[|body| - 2];
    var r := Leftover(d, k);
    HeldBackPieces(body, r, c);
    BlocksSnoc(d, e, k);
    TextTokensConcat(FullBlocks(d, k), [r + [e]]);
    assert TextTokens([r + [e]]) == [TextToken(r + [e])];
    hide Leftover, FullBlocks, Settled, Unsettled, TextTokens;
    if |r| + 3 >= max {
      assert CDataBuffer(max, body + [c]) == "" + Unsettled(body + [c]);
    } else {
      assert CDataBuffer(max, body + [c]) == r + [e] + Unsettled(body + [c]);
    }
  }

  lemma CDataContinues(max: Limit, body: string, m: Config, c: char) returns (more: seq<XmlToken>)
    requires m.state == State.CData && m.buffer == CDataBuffer(max, body)
    requires !EndsWith(body + [c], "]]>")
    ensures StepCData(max, m, c) == m.(buffer := CDataBuffer(max, body + [c]), tokens := m.tokens + more)
    ensures CDataTokens(max, body + [c]) == CDataTokens(max, body) + more
  {
    HeldBack(max, body, c);
    var b := m.buffer + [c];
    more := if |body| >= 2 && |b| >= max then [TextToken(b[..|b| - 2])] else [];
    if |body| >= 2 {
      CDataBlocks(max, body, c);
      hide CDataBuffer, CDataTokens, EndsWith;
    }
  }

  /** The configuration after one byte is what the extended parse stands for, or both reject alike. */
  ghost predicate Agrees(max: Limit, s: Parse, m: Config, c: char) {
    match ExtendParse(max, s, c)
    case Parsed(s') => Describes(max, s', Step(max, m, c))
    case Rejected(e) => e != NoError && Step(max, m, c).error == e
  }

  /** The last flush completes the blocks. */
  lemma LastFlush(d: string, k: nat, before: Config, after: Config, base: seq<XmlToken>)
    requires k > 0
    requires before.tokens == base + TextTokens(FullBlocks(d, k))
    requires after.tokens == EmitText(before, Leftover(d, k)).tokens
    ensures after.tokens == base + TextTokens(Blocks(d, k))
  {
    var bs, r := FullBlocks(d, k), Leftover(d, k);
    TextTokensConcat(bs, [r]);
    assert TextTokens([r]) == [TextToken(r)];
    hide FullBlocks, Leftover;
    if r == "" {
      assert bs + [] == bs;
    } else {
      Associate(base, TextTokens(bs), [TextToken(r)]);
    }
  }

  /** A text run read so far, and one byte more that does not end it. */
  lemma TextContinues(max: Limit, text: string, m: Config, c: char, base: seq<XmlToken>)
    requires m.buffer == Leftover(text, max) && m.tokens == base + TextTokens(FullBlocks(text, max)) && c != '<'
    ensures var m' := StepText(max, m, c);
            && m'.buffer == Leftover(text + [c], max)
            && m' == m.(buffer := m'.buffer, tokens := base + TextTokens(FullBlocks(text + [c], max)))
  {
    BlocksSnoc(text, c, max);
    var bs, block := FullBlocks(text, max), m.buffer + [c];
    TextTokensConcat(bs, [block]);
    assert TextTokens([block]) == [TextToken(block)];
    hide Leftover, FullBlocks;
    Associate(base, TextTokens(bs), [TextToken(block)]);
  }

  lemma TextAgrees(max: Limit, s: Parse, m: Config, c: char)
    requires Describes(max, s, m) && s.partial == NoMarkup
    ensures Agrees(max, s, m, c)
  {
    var items, text := ItemsTokens(max, s.items), s.text;
    TextRecords(max, s, c);
    assert Step(max, m, c) == StepText(max, m, c);
    hide Step, ItemsTokens, ValidItems;
    if c == '<' {
      LastFlush(text, max, m, StepText(max, m, c), items);
    } else {
      TextContinues(max, text, m, c, items);
      hide StepText, Leftover, FullBlocks;
    }
  }

  /** Markup ends: its item is complete and its tokens have been reported. */
  lemma DoneDescribes(max: Limit, s: Parse, m': Config, markup: Markup)
    requires ValidItems(max, s.items) && ValidText(s.text) && ValidMarkup(max, markup)
    requires m'.error == NoError && m'.errors == [] && m'.state == State.Text && m'.buffer == ""
    requires m'.tokens == ItemsTokens(max, s.items) + TextRunTokens(max, s.text) + MarkupTokens(max, markup)
    ensures Describes(max, Parse(s.items + [Item(s.text, markup)], "", NoMarkup), m')
  {
    var item := Item(s.text, markup);
    ItemsSnoc(max, s.items, item);
    DoneValid(max, s.items, item);
    assert TextTokens(FullBlocks("", max)) == [];
    hide ItemsTokens, TextRunTokens, MarkupTokens, ValidMarkup;
  }

  /** Markup goes on: nothing new has been reported. */
  lemma MoreDescribes(max: Limit, s: Parse, m: Config, m': Config, p: Partial)
    requires Describes(max, s, m) && s.partial != NoMarkup && !s.partial.InCData?
    requires ValidPartial(max, p) && Follows(max, m, m', More(p))
    ensures Describes(max, s.(partial := p), m')
  {
    assert CDataTokens(max, "") == [];
    hide ValidPartial, CDataTokens, CDataBuffer, ItemsTokens, TextRunTokens, HeadToken, StateOf;
  }

  lemma MarkupEnds(max: Limit, s: Parse, m: Config, m': Config, markup: Markup)
    requires Describes(max, s, m) && s.partial != NoMarkup && !s.partial.InCData?
    requires ValidMarkup(max, markup) && Follows(max, m, m', Done(markup))
    ensures Describes(max, Parse(s.items + [Item(s.text, markup)], "", NoMarkup), m')
  {
    hide ItemsTokens, MarkupTokens, TextRunTokens, StateOf, FieldsMatch, ValidMarkup, ValidPartial;
    DoneDescribes(max, s, m', markup);
  }

  lemma MarkupAgrees(max: Limit, s: Parse, m: Config, c: char)
    requires Describes(max, s, m) && s.partial != NoMarkup && !s.partial.InCData?
    ensures Agrees(max, s, m, c)
  {
    var p, m' := s.partial, Step(max, m, c);
    MarkupFollows(max, p, m, c);
    ExtendRecords(max, p, c);
    hide Step, Extend, ValidPartial, ValidMarkup, FieldsMatch, StateOf, ParseTokens, ValidItems;
    match Extend(max, p, c) {
      case Done(markup) => MarkupEnds(max, s, m, m', markup);
      case More(p') => MoreDescribes(max, s, m, m', p');
      case Bad(_) =>
    }
  }

  lemma CDataStep(max: Limit, p: Partial, m: Config, c: char)
    requires p.InCData? && Carries(max, p, m)
    ensures Records(max, p, c, ExtendCData(p.body, c))
    ensures Extend(max, p, c) == ExtendCData(p.body, c) && Step(max, m, c) == StepCData(max, m, c)
  {
    ExtendRecords(max, p, c);
    hide StepCData, ExtendCData, Records;
  }

  lemma CDataEndDescribes(max: Limit, s: Parse, m: Config, m': Config, d: string)
    requires Describes(max, s, m) && s.partial.InCData? && Settled(s.partial.body) == d
    requires ValidMarkup(max, Markup.CData(d))
    requires m' == EmitText(m, Leftover(d, max - 2)).(buffer := "", state := State.Text)
    ensures Describes(max, Parse(s.items + [Item(s.text, Markup.CData(d))], "", NoMarkup), m')
  {
    LastFlush(d, max - 2, m, m', ItemsTokens(max, s.items) + TextRunTokens(max, s.text));
    hide ItemsTokens, TextRunTokens, Leftover, Blocks, TextTokens, StateOf, FieldsMatch, ValidMarkup;
    DoneDescribes(max, s, m', Markup.CData(d));
  }

  lemma CDataDoneAgrees(max: Limit, s: Parse, m: Config, c: char)
    requires Describes(max, s, m) && s.partial.InCData? && EndsWith(s.partial.body + [c], "]]>")
    ensures Agrees(max, s, m, c)
  {
    var longer, m' := s.partial.body + [c], StepCData(max, m, c);
    var d := longer[..|longer| - 3];
    CDataStep(max, s.partial, m, c);
    CDataEnds(max, s.partial.body, m, c);
    assert d == Settled(s.partial.body);
    assert ExtendCData(s.partial.body, c) == Done(Markup.CData(d));
    hide Describes, StepCData, ExtendCData, EndsWith, CDataBuffer, ParseTokens, Blocks, ItemsTokens, ValidItems,
      ValidMarkup, ValidPartial, StateOf, FieldsMatch;
    CDataEndDescribes(max, s, m, m', d);
    hide Step, Extend;
  }

  lemma CDataMoreDescribes(max: Limit, s: Parse, m: Config, longer: string, more: seq<XmlToken>)
    requires Describes(max, s, m) && s.partial.InCData? && ValidPartial(max, InCData(longer))
    requires CDataTokens(max, longer) == CDataTokens(max, s.partial.body) + more
    ensures Describes(max, s.(partial := InCData(longer)),
                      m.(buffer := CDataBuffer(max, longer), tokens := m.tokens + more))
  {
    hide CDataBuffer, CDataTokens, ItemsTokens, TextRunTokens, ValidPartial, ValidItems;
    var before, body := ItemsTokens(max, s.items) + TextRunTokens(max, s.text), CDataTokens(max, s.partial.body);
    Associate(before, body, more);
  }

  lemma CDataMoreAgrees(max: Limit, s: Parse, m: Config, c: char)
    requires Describes(max, s, m) && s.partial.InCData? && !EndsWith(s.partial.body + [c], "]]>")
    ensures Agrees(max, s, m, c)
  {
    var longer := s.partial.body + [c];
    CDataStep(max, s.partial, m, c);
    var more := CDataContinues(max, s.partial.body, m, c);
    assert ExtendCData(s.partial.body, c) == More(InCData(longer));
    assert ValidPartial(max, InCData(longer));
    CDataMoreDescribes(max, s, m, longer, more);
    hide Step, Extend, Describes, StepCData, ExtendCData, EndsWith, CDataBuffer, CDataTokens, ValidPartial, Carries,
      Records, StateOf, FieldsMatch, ParseTokens, ValidParse;
  }

  lemma ParseAgrees(max: Limit, s: Parse, m: Config, c: char)
    requires Describes(max, s, m)
    ensures Agrees(max, s, m, c)
  {
    hide Agrees, Describes;
    if s.partial == NoMarkup {
      TextAgrees(max, s, m, c);
    } else if s.partial.InCData? {
      if EndsWith(s.partial.body + [c], "]]>") {
        CDataDoneAgrees(max, s, m, c);
      } else {
        CDataMoreAgrees(max, s, m, c);
      }
    } else {
      MarkupAgrees(max, s, m, c);
    }
  }
}
