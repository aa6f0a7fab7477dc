/** Every legal parse is reached from a legal parse that is one byte shorter. */
module Inversion {
  import opened Sequences
  import opened Tokens
  import opened Machine
  import opened Grammar
  import opened Parsing

  lemma Last<T>(s: seq<T>)
    requires s != []
    ensures s[..|s| - 1] + [s[|s| - 1]] == s
  {}

  lemma AllButLast(s: string, t: string)
    requires s != "" && !Contains(s, t)
    ensures !Contains(s[..|s| - 1], t)
  {
    ContainsPrefix(s, |s| - 1, t);
  }

  lemma NotEnding(s: string, t: string)
    requires !Contains(s, t)
    ensures !EndsWith(s, t)
  {
    if EndsWith(s, t) { assert OccursAt(s, t, |s| - |t|); }
  }

  /** The head stands before any attribute or white space, or after some. */
  function AfterHead(head: Head, space: string): Partial {
    if head.attributes == [] && space == "" then InName(head.isDeclaration, head.name) else InBody(head, space)
  }

  lemma BeforeBody(max: Limit, head: Head, space: string) returns (p: Partial, c: char)
    requires ValidPartial(max, InBody(head, space))
    ensures ValidPartial(max, p) && p != NoMarkup && Extend(max, p, c) == More(InBody(head, space))
  {
    var n := |space|;
    if n > 1 || (n == 1 && head.attributes != []) {
      p, c := InBody(head, space[..n - 1]), space[n - 1];
      Last(space);
    } else if n == 1 {
      p, c := InName(head.isDeclaration, head.name), space[0];
    } else {
      var k := |head.attributes| - 1;
      var a := head.attributes[k];
      p, c := InValue(head.(attributes := head.attributes[..k]), a), a.quote;
      Last(head.attributes);
    }
  }

  lemma BeforeAttribute(max: Limit, q: Partial) returns (p: Partial, c: char)
    requires q.InAttributeName? || q.AfterAttributeName? || q.BeforeValue?
    requires ValidPartial(max, q)
    ensures ValidPartial(max, p) && p != NoMarkup && Extend(max, p, c) == More(q)
  {
    match q
    case InAttributeName(head, space, name) =>
      Last(name);
      var n := |name| - 1;
      p, c := if n == 0 then InBody(head, space) else InAttributeName(head, space, name[..n]), name[n];
    case AfterAttributeName(head, space, name, beforeEquals) =>
      Last(beforeEquals);
      var n := |beforeEquals| - 1;
      c := beforeEquals[n];
      p := if n == 0 then InAttributeName(head, space, name)
      else AfterAttributeName(head, space, name, beforeEquals[..n]);
    case BeforeValue(head, space, name, beforeEquals, afterEquals) =>
      if afterEquals != "" {
        Last(afterEquals);
        var n := |afterEquals| - 1;
        p, c := BeforeValue(head, space, name, beforeEquals, afterEquals[..n]), afterEquals[n];
      } else {
        c := '=';
        p := if beforeEquals == "" then InAttributeName(head, space, name)
        else AfterAttributeName(head, space, name, beforeEquals);
      }
  }

  lemma BeforeInValue(max: Limit, q: Partial) returns (p: Partial, c: char)
    requires q.InValue? && ValidPartial(max, q)
    ensures ValidPartial(max, p) && p != NoMarkup && Extend(max, p, c) == More(q)
  {
    var head, a := q.head, q.attribute;
    if a.value == "" {
      p, c := BeforeValue(head, a.before, a.name, a.beforeEquals, a.afterEquals), a.quote;
    } else {
      Last(a.value);
      var n := |a.value| - 1;
      p, c := InValue(head, a.(value := a.value[..n])), a.value[n];
      assert a.(value := a.value[..n] + [c]) == a;
    }
  }

  lemma BeforeName(max: Limit, q: Partial) returns (p: Partial, c: char)
    requires q.InName? && ValidPartial(max, q)
    ensures ValidPartial(max, p) && p != NoMarkup && Extend(max, p, c) == More(q)
  {
    var name := q.name;
    if name == "" {
      p, c := Opened, '?';
    } else {
      Last(name);
      var n := |name| - 1;
      p, c := if n == 0 && !q.isDeclaration then Opened else InName(q.isDeclaration, name[..n]), name[n];
    }
  }

  lemma BeforeClosing(max: Limit, q: Partial) returns (p: Partial, c: char)
    requires q.Closing? && ValidPartial(max, q)
    ensures ValidPartial(max, p) && p != NoMarkup && Extend(max, p, c) == More(q)
  {
    p, c := AfterHead(q.head, q.space), if q.head.isDeclaration then '?' else '/';
  }

  lemma BeforeEndName(max: Limit, q: Partial) returns (p: Partial, c: char)
    requires q.InEndName? || q.InEndBody?
    requires ValidPartial(max, q)
    ensures ValidPartial(max, p) && p != NoMarkup && Extend(max, p, c) == More(q)
  {
    var s := if q.InEndName? then q.name else q.space;
    var n := |s| - 1;
    if s == "" {
      p, c := Opened, '/';
    } else {
      Last(s);
      c := s[n];
      p := if q.InEndName? then InEndName(s[..n])
      else if n == 0 then InEndName(q.name) else InEndBody(q.name, s[..n]);
    }
  }

  lemma BeforeSpecial(max: Limit, q: Partial) returns (p: Partial, c: char)
    requires q.InSpecial? && ValidPartial(max, q)
    ensures ValidPartial(max, p) && p != NoMarkup && Extend(max, p, c) == More(q)
  {
    var x := q.prefix;
    if x == "" {
      p, c := Opened, '!';
    } else {
      Last(x);
      p, c := InSpecial(x[..|x| - 1]), x[|x| - 1];
      assert |x| < 7;
      assert x < "--" ==> x[..|x| - 1] < "--";
      assert x < CDATA_PREFIX ==> x[..|x| - 1] < CDATA_PREFIX;
    }
  }

  lemma BeforeRaw(max: Limit, q: Partial) returns (p: Partial, c: char)
    requires q.InComment? || q.InCData?
    requires ValidPartial(max, q)
    ensures ValidPartial(max, p) && p != NoMarkup && Extend(max, p, c) == More(q)
  {
    var body, t := q.body, if q.InComment? then "-->" else "]]>";
    if body == "" {
      if q.InComment? {
        p, c := InSpecial("-"), '-';
        assert "-" + ['-'] == "--";
        assert "-" < "--";
      } else {
        p, c := InSpecial("[CDATA"), '[';
        assert "[CDATA" + ['['] == CDATA_PREFIX;
        assert "[CDATA" < CDATA_PREFIX;
      }
    } else {
      Last(body);
      AllButLast(body, t);
      NotEnding(body, t);
      c := body[|body| - 1];
      p := if q.InComment? then InComment(body[..|body| - 1]) else InCData(body[..|body| - 1]);
    }
  }

  lemma BeforePartial(max: Limit, q: Partial) returns (p: Partial, c: char)
    requires q != NoMarkup && q != Opened && ValidPartial(max, q)
    ensures ValidPartial(max, p) && p != NoMarkup && Extend(max, p, c) == More(q)
  {
    hide Extend, ValidPartial;
    match q
    case InBody(head, space) => p, c := BeforeBody(max, head, space);
    case InValue(_, _) => p, c := BeforeInValue(max, q);
    case InSpecial(_) => p, c := BeforeSpecial(max, q);
    case InComment(_) => p, c := BeforeRaw(max, q);
    case InCData(_) => p, c := BeforeRaw(max, q);
    case InAttributeName(_, _, _) => p, c := BeforeAttribute(max, q);
    case AfterAttributeName(_, _, _, _) => p, c := BeforeAttribute(max, q);
    case BeforeValue(_, _, _, _, _) => p, c := BeforeAttribute(max, q);
    case InName(_, _) => p, c := BeforeName(max, q);
    case Closing(_, _) => p, c := BeforeClosing(max, q);
    case _ => p, c := BeforeEndName(max, q);
  }

  lemma BeforeElementEnd(max: Limit, markup: Markup) returns (p: Partial)
    requires markup.Element? || markup.EndTag?
    requires ValidMarkup(max, markup)
    ensures ValidPartial(max, p) && p != NoMarkup && Extend(max, p, '>') == Done(markup)
  {
    match markup
    case Element(head, space, isEmpty) =>
      p := if head.isDeclaration || isEmpty then Closing(head, space) else AfterHead(head, space);
      assert Head(head.isDeclaration, head.name, []) == head || head.attributes != [];
    case EndTag(name, space) =>
      p := if space == "" then InEndName(name) else InEndBody(name, space);
  }

  lemma BeforeRawEnd(max: Limit, markup: Markup) returns (p: Partial)
    requires markup.Comment? || markup.CData?
    requires ValidMarkup(max, markup)
    ensures ValidPartial(max, p) && p != NoMarkup && Extend(max, p, '>') == Done(markup)
  {
    var body := markup.body;
    if markup.Comment? {
      p := InComment(body + "--");
      assert body + "--" + ['>'] == body + "-->";
      assert (body + "-->")[..|body|] == body;
    } else {
      p := InCData(body + "]]");
      assert body + "]]" + ['>'] == body + "]]>";
      assert (body + "]]>")[..|body|] == body;
    }
  }

  lemma Predecessor(max: Limit, s: Parse) returns (s0: Parse, c: char)
    requires ValidParse(max, s) && s != NOTHING
    ensures ValidParse(max, s0) && ExtendParse(max, s0, c) == Parsed(s)
  {
    hide Extend, ValidMarkup;
    var n := |s.items| - 1;
    if s.partial == Opened {
      s0, c := s.(partial := NoMarkup), '<';
    } else if s.partial != NoMarkup {
      var p;
      p, c := BeforePartial(max, s.partial);
      s0 := s.(partial := p);
    } else if s.text != "" {
      Last(s.text);
      s0, c := s.(text := s.text[..|s.text| - 1]), s.text[|s.text| - 1];
    } else {
      Last(s.items);
      var item := s.items[n];
      assert ValidItem(max, item);
      var p;
      if item.markup.Element? || item.markup.EndTag? {
        p := BeforeElementEnd(max, item.markup);
      } else {
        p := BeforeRawEnd(max, item.markup);
      }
      s0, c := Parse(s.items[..n], item.text, p), '>';
    }
  }
}
