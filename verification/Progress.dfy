/** Every byte accepted by `ExtendParse` is recorded exactly once, at the end, in a legal lexeme. */
module Progress {
  import opened Sequences
  import opened Tokens
  import opened Machine
  import opened Grammar
  import opened Parsing

  ghost predicate Records(max: Limit, p: Partial, c: char, o: Outcome) {
    match o
    case More(p') => p' != NoMarkup && ValidPartial(max, p') && PartialText(p') == PartialText(p) + [c]
    case Done(markup) => ValidMarkup(max, markup) && MarkupText(markup) == PartialText(p) + [c]
    case Bad(_) => true
  }

  lemma NameRecords(max: Limit, p: Partial, c: char)
    requires p.InName? && ValidPartial(max, p)
    ensures Records(max, p, c, Extend(max, p, c))
  {
    var head := Head(p.isDeclaration, p.name, []);
    assert AttributesText([]) == "";
    assert HeadText(head) == PartialText(p);
    match Extend(max, p, c)
    case Done(markup) => assert MarkupText(markup) == HeadText(head) + "" + [c];
    case _ =>
  }

  lemma BodyRecords(max: Limit, p: Partial, c: char)
    requires p.InBody? && ValidPartial(max, p)
    ensures Records(max, p, c, Extend(max, p, c))
  {
    var t := HeadText(p.head);
    Associate(t, p.space, [c]);
  }

  lemma AttributeNameRecords(max: Limit, p: Partial, c: char)
    requires p.InAttributeName? && ValidPartial(max, p)
    ensures Records(max, p, c, Extend(max, p, c))
  {
    var t, u := HeadText(p.head), p.space + p.name;
    Associate(t, u, [c]);
    Associate(p.space, p.name, [c]);
    assert u + "" + "=" + "" == u + "=";
    hide HeadText, ValidSpaced;
  }

  lemma AfterAttributeNameRecords(max: Limit, p: Partial, c: char)
    requires p.AfterAttributeName? && ValidPartial(max, p)
    ensures Records(max, p, c, Extend(max, p, c))
  {
    var t, u := HeadText(p.head), p.space + p.name + p.beforeEquals;
    Associate(t, u, [c]);
    Associate(p.space + p.name, p.beforeEquals, [c]);
    assert u + "=" + "" == u + "=";
    hide HeadText, ValidSpaced;
  }

  lemma BeforeValueRecords(max: Limit, p: Partial, c: char)
    requires p.BeforeValue? && ValidPartial(max, p)
    ensures Records(max, p, c, Extend(max, p, c))
  {
    var t, v := HeadText(p.head), p.space + p.name + p.beforeEquals + "=";
    var u := v + p.afterEquals;
    Associate(t, u, [c]);
    Associate(v, p.afterEquals, [c]);
    assert u + [c] + "" == u + [c];
    hide HeadText, ValidSpaced;
  }

  lemma ValueClosed(head: Head, a: Attribute)
    ensures HeadText(head.(attributes := head.attributes + [a])) + "" == HeadText(head) + UnclosedValue(a) + [a.quote]
  {
    var o, as', u := Opening(head.isDeclaration) + head.name, AttributesText(head.attributes), UnclosedValue(a);
    AttributesSnoc(head.attributes, a);
    assert AttributeText(a) == u + [a.quote];
    hide *;
    assert o + (as' + (u + [a.quote])) + "" == o + as' + u + [a.quote];
  }

  lemma ValueGrows(max: Limit, p: Partial, c: char)
    requires p.InValue? && ValidPartial(max, p) && c != p.attribute.quote && |p.attribute.value| < max
    ensures var q := InValue(p.head, p.attribute.(value := p.attribute.value + [c]));
            ValidPartial(max, q) && PartialText(q) == PartialText(p) + [c]
  {
    var t, a := HeadText(p.head), p.attribute;
    var u := UnclosedValue(a);
    assert UnclosedValue(a.(value := a.value + [c])) == u + [c];
    hide HeadText, UnclosedValue;
    Associate(t, u, [c]);
  }

  lemma ValueEnds(max: Limit, p: Partial)
    requires p.InValue? && ValidPartial(max, p)
    ensures var q := InBody(p.head.(attributes := p.head.attributes + [p.attribute]), "");
            ValidPartial(max, q) && PartialText(q) == PartialText(p) + [p.attribute.quote]
  {
    ValueClosed(p.head, p.attribute);
    hide HeadText, UnclosedValue;
  }

  lemma ValueRecords(max: Limit, p: Partial, c: char)
    requires p.InValue? && ValidPartial(max, p)
    ensures Records(max, p, c, Extend(max, p, c))
  {
    if c == p.attribute.quote {
      ValueEnds(max, p);
      hide ValidPartial, PartialText;
    } else if |p.attribute.value| < max {
      ValueGrows(max, p, c);
      hide ValidPartial, PartialText;
    }
  }

  lemma ClosingRecords(max: Limit, p: Partial, c: char)
    requires p.Closing? || p.InEndName? || p.InEndBody? || p.Opened?
    requires ValidPartial(max, p)
    ensures Records(max, p, c, Extend(max, p, c))
  {
    if p.Closing? && c == '>' {
      assert PartialText(p) + ">" == HeadText(p.head) + p.space + Ending(p.head, !p.head.isDeclaration);
    }
  }

  lemma SpecialRecords(max: Limit, p: Partial, c: char)
    requires p.InSpecial? && ValidPartial(max, p)
    ensures Records(max, p, c, Extend(max, p, c))
  {
    var longer := p.prefix + [c];
    assert "<!" + longer == PartialText(p) + [c];
    match Extend(max, p, c)
    case More(InComment(body)) => assert !Contains("", "-->");
    case More(InCData(body)) =>
      assert "<!" + CDATA_PREFIX + "" == "<![CDATA[" + "";
      assert !Contains("", "]]>");
    case _ =>
  }

  /** The first terminator ends the body: one byte earlier there was none. */
  lemma Terminated(longer: string, t: string)
    requires |t| == 3 && |longer| > 0 && !Contains(longer[..|longer| - 1], t) && EndsWith(longer, t)
    ensures var body := longer[..|longer| - 3];
            longer == body + t && !Contains(body + t[..2], t)
  {
    var body := longer[..|longer| - 3];
    assert longer == body + t;
    assert longer[..|longer| - 1] == body + t[..2];
  }

  lemma CommentEnds(max: Limit, p: Partial, c: char)
    requires p.InComment? && ValidPartial(max, p) && EndsWith(p.body + [c], "-->")
    ensures Records(max, p, c, Extend(max, p, c))
  {
    var longer := p.body + [c];
    var body := longer[..|longer| - 3];
    assert longer[..|longer| - 1] == p.body;
    Terminated(longer, "-->");
    assert "-->"[..2] == "--";
    hide Contains, EndsWith;
    Associate("<!--", body, "-->");
    Associate("<!--", p.body, [c]);
  }

  lemma CommentRecords(max: Limit, p: Partial, c: char)
    requires p.InComment? && ValidPartial(max, p)
    ensures Records(max, p, c, Extend(max, p, c))
  {
    if EndsWith(p.body + [c], "-->") {
      CommentEnds(max, p, c);
      hide Records, Extend;
    } else {
      ContainsSnoc(p.body, c, "-->");
      hide Contains, EndsWith;
      Associate("<!--", p.body, [c]);
    }
  }

  lemma CDataEnds(max: Limit, p: Partial, c: char)
    requires p.InCData? && ValidPartial(max, p) && EndsWith(p.body + [c], "]]>")
    ensures Records(max, p, c, Extend(max, p, c))
  {
    var longer := p.body + [c];
    var body := longer[..|longer| - 3];
    assert longer[..|longer| - 1] == p.body;
    Terminated(longer, "]]>");
    assert "]]>"[..2] == "]]";
    hide Contains, EndsWith;
    Associate("<![CDATA[", body, "]]>");
    Associate("<![CDATA[", p.body, [c]);
  }

  lemma CDataRecords(max: Limit, p: Partial, c: char)
    requires p.InCData? && ValidPartial(max, p)
    ensures Records(max, p, c, Extend(max, p, c))
  {
    if EndsWith(p.body + [c], "]]>") {
      CDataEnds(max, p, c);
      hide Records, Extend;
    } else {
      ContainsSnoc(p.body, c, "]]>");
      hide Contains, EndsWith;
      Associate("<![CDATA[", p.body, [c]);
    }
  }

  lemma ExtendRecords(max: Limit, p: Partial, c: char)
    requires p != NoMarkup && ValidPartial(max, p)
    ensures Records(max, p, c, Extend(max, p, c))
  {
    hide Extend, Records;
    match p
    case InName(_, _) => NameRecords(max, p, c);
    case InBody(_, _) => BodyRecords(max, p, c);
    case InValue(_, _) => ValueRecords(max, p, c);
    case InSpecial(_) => SpecialRecords(max, p, c);
    case InAttributeName(_, _, _) => AttributeNameRecords(max, p, c);
    case AfterAttributeName(_, _, _, _) => AfterAttributeNameRecords(max, p, c);
    case BeforeValue(_, _, _, _, _) => BeforeValueRecords(max, p, c);
    case InComment(_) => CommentRecords(max, p, c);
    case InCData(_) => CDataRecords(max, p, c);
    case _ => ClosingRecords(max, p, c);
  }

  lemma TextRecords(max: Limit, s: Parse, c: char)
    requires s.partial == NoMarkup && ValidParse(max, s)
    ensures ExtendParse(max, s, c).Parsed?
    ensures ValidParse(max, ExtendParse(max, s, c).parse)
    ensures ParseText(ExtendParse(max, s, c).parse) == ParseText(s) + [c]
  {
    var t := ItemsText(s.items);
    assert t + s.text + "" + [c] == t + s.text + [c] == t + (s.text + [c]) + "";
  }

  lemma DoneValid(max: Limit, items: seq<Item>, item: Item)
    requires ValidItems(max, items) && ValidItem(max, item)
    ensures ValidItems(max, items + [item])
  {
    hide ValidItem;
  }

  lemma DoneRecords(max: Limit, s: Parse, markup: Markup, c: char)
    requires MarkupText(markup) == PartialText(s.partial) + [c]
    ensures ParseText(Parse(s.items + [Item(s.text, markup)], "", NoMarkup)) == ParseText(s) + [c]
  {
    var before, u, items := ItemsText(s.items) + s.text, PartialText(s.partial), s.items + [Item(s.text, markup)];
    ItemsSnoc(max, s.items, Item(s.text, markup));
    assert PartialText(NoMarkup) == "";
    hide PartialText, ItemsText, MarkupText;
    assert ItemsText(items) + "" + "" == ItemsText(items);
    Associate(before, u, [c]);
  }

  lemma MarkupRecords(max: Limit, s: Parse, c: char, markup: Markup)
    requires s.partial != NoMarkup && ValidParse(max, s) && Extend(max, s.partial, c) == Done(markup)
    ensures ValidItems(max, s.items + [Item(s.text, markup)])
    ensures ParseText(Parse(s.items + [Item(s.text, markup)], "", NoMarkup)) == ParseText(s) + [c]
  {
    hide Extend, PartialText, MarkupText, ItemsText, ValidMarkup, ValidPartial, ValidItems, ParseText;
    ExtendRecords(max, s.partial, c);
    DoneValid(max, s.items, Item(s.text, markup));
    DoneRecords(max, s, markup, c);
  }

  lemma PartRecords(max: Limit, s: Parse, c: char, p: Partial)
    requires s.partial != NoMarkup && ValidParse(max, s) && Extend(max, s.partial, c) == More(p)
    ensures ValidPartial(max, p) && ParseText(s.(partial := p)) == ParseText(s) + [c]
  {
    hide Extend, PartialText, MarkupText, ItemsText, ValidMarkup, ValidPartial, ValidItems;
    ExtendRecords(max, s.partial, c);
    Associate(ItemsText(s.items) + s.text, PartialText(s.partial), [c]);
  }

  /** Nothing is dropped, duplicated or moved: the parse's text grows by exactly the byte read. */
  lemma ParseRecords(max: Limit, s: Parse, c: char)
    requires ValidParse(max, s)
    ensures match ExtendParse(max, s, c)
            case Parsed(s') => ValidParse(max, s') && ParseText(s') == ParseText(s) + [c]
            case Rejected(_) => true
  {
    if s.partial == NoMarkup {
      TextRecords(max, s, c);
    } else {
      match Extend(max, s.partial, c)
      case Done(markup) => MarkupRecords(max, s, c, markup);
      case More(p) => PartRecords(max, s, c, p);
      case Bad(_) =>
    }
    hide Extend, PartialText, ParseText, ValidMarkup, ValidPartial, ValidItems;
  }
}
