/**
 * How early a malformed stream is noticed: the error comes at the first byte after which no legal
 * document is possible, except inside a comment that has grown too long to be closed in time.
 */
module EarlyErrors {
  import opened Characters
  import opened Sequences
  import opened Tokens
  import opened Machine
  import opened Grammar
  import opened Parsing
  import opened Progress
  import opened Recognition

  /** How many bytes of `-->` must still follow. */
  function Missing(body: string): nat {
    if EndsWith(body, "--") then 1 else if EndsWith(body, "-") then 2 else 3
  }

  /** The terminator can no longer fit before the buffer check. */
  predicate Doomed(max: Limit, m: Config) {
    m.state == State.Comment && |m.buffer| + Missing(m.buffer) > max + 1
  }

  ghost predicate IsDocument(max: Limit, w: string) {
    exists d: Document :: ValidDocument(max, d) && DocumentText(d) == w
  }

  /** Some markup that starts with the markup in progress. */
  ghost predicate Completes(max: Limit, p: Partial, markup: Markup, z: string) {
    ValidMarkup(max, markup) && MarkupText(markup) == PartialText(p) + z
  }

  /** A byte that brings the markup in progress closer to its end. */
  function NextByte(p: Partial): char
    requires p != NoMarkup
  {
    match p
    case Opened => 'a'
    case InName(isDeclaration, name) => if name == "" then 'a' else if isDeclaration then '?' else '>'
    case InBody(head, _) => if head.isDeclaration then '?' else '>'
    case InAttributeName(_, _, _) => '='
    case AfterAttributeName(_, _, _, _) => '='
    case BeforeValue(_, _, _, _, _) => '"'
    case InValue(_, a) => a.quote
    case InEndName(name) => if name == "" then 'a' else '>'
    case InSpecial(prefix) => if prefix < "--" || |prefix| >= 7 then '-' else CDATA_PREFIX[|prefix|]
    case InComment(body) => if Missing(body) == 1 then '>' else '-'
    case InCData(body) => if EndsWith(body, "]]") then '>' else ']'
    case _ => '>'
  }

  /** How many such bytes are needed at most. */
  function Distance(p: Partial): nat {
    match p
    case Opened => 5
    case InName(_, name) => if name == "" then 4 else 3
    case InBody(_, _) => 2
    case InAttributeName(_, _, _) => 5
    case AfterAttributeName(_, _, _, _) => 5
    case BeforeValue(_, _, _, _, _) => 4
    case InValue(_, _) => 3
    case InEndName(name) => if name == "" then 2 else 1
    case InSpecial(prefix) => if |prefix| < 7 then 11 - |prefix| else 4
    case InComment(body) => Missing(body)
    case InCData(body) => if EndsWith(body, "]]") then 1 else if EndsWith(body, "]") then 2 else 3
    case _ => 1
  }

  predicate Closable(max: Limit, p: Partial) {
    p.InComment? ==> |p.body| + Missing(p.body) <= max + 1
  }

  lemma EndsSnoc(s: string, c: char, t: string, d: char)
    ensures EndsWith(s + [c], t + [d]) <==> EndsWith(s, t) && c == d
  {
    var n, u := |s| - |t|, s + [c];
    if n >= 0 {
      assert u[n..] == s[n..] + [c];
      if u[n..] == t + [d] {
        assert s[n..] == u[n..][..|t|] && c == u[n..][|t|];
      }
    }
  }

  lemma Terminators()
    ensures "--" + ['>'] == "-->" && "-" + ['-'] == "--" && "" + ['-'] == "-"
    ensures "]]" + ['>'] == "]]>" && "]" + [']'] == "]]" && "" + [']'] == "]"
  {}

  lemma Closer(max: Limit, p: Partial)
    requires p != NoMarkup && ValidPartial(max, p) && Closable(max, p)
    ensures match Extend(max, p, NextByte(p))
            case Done(_) => true
            case More(q) => q != NoMarkup && Closable(max, q) && Distance(q) < Distance(p)
            case Bad(_) => false
  {
    Terminators();
    if p.InComment? {
      EndsSnoc(p.body, NextByte(p), "--", '>');
      EndsSnoc(p.body, NextByte(p), "-", '-');
      EndsSnoc(p.body, NextByte(p), "", '-');
      assert EndsWith(p.body, "");
      hide EndsWith, ValidPartial, ExtendCData;
    } else if p.InCData? {
      EndsSnoc(p.body, NextByte(p), "]]", '>');
      EndsSnoc(p.body, NextByte(p), "]", ']');
      EndsSnoc(p.body, NextByte(p), "", ']');
      assert EndsWith(p.body, "");
      hide EndsWith, ValidPartial, ExtendComment;
    } else if p.InSpecial? {
      SpecialCloser(max, p);
    } else {
      hide ValidSpaced, ValidHead, AllName, AllSpace, EndsWith;
    }
  }

  lemma SpecialCloser(max: Limit, p: Partial)
    requires p.InSpecial? && ValidPartial(max, p)
    ensures Extend(max, p, NextByte(p)).More?
    ensures var q := Extend(max, p, NextByte(p)).partial;
            q != NoMarkup && Closable(max, q) && Distance(q) < Distance(p)
  {
    var x, c := p.prefix, NextByte(p);
    assert !EndsWith("", "]]") && !EndsWith("", "]");
    if x < "--" {
      assert x == "--"[..|x|];
      assert x + [c] == "--"[..|x| + 1];
    } else {
      assert x == CDATA_PREFIX[..|x|];
      assert x + [c] == CDATA_PREFIX[..|x| + 1];
      assert |x| < 6 ==> x + [c] <= CDATA_PREFIX;
    }
  }

  /** Markup in progress that is not a doomed comment can be closed. */
  lemma {:induction false} CloseMarkup(max: Limit, p: Partial) returns (markup: Markup, z: string)
    requires p != NoMarkup && ValidPartial(max, p) && Closable(max, p)
    ensures Completes(max, p, markup, z)
    decreases Distance(p)
  {
    hide Extend, ValidPartial, NextByte, PartialText, MarkupText, ValidMarkup, Distance, Closable;
    var c := NextByte(p);
    Closer(max, p);
    ExtendRecords(max, p, c);
    match Extend(max, p, c) {
      case Done(m) =>
        markup, z := m, [c];
      case More(q) =>
        var y;
        markup, y := CloseMarkup(max, q);
        z := [c] + y;
        Associate(PartialText(p), [c], y);
    }
  }

  lemma ClosedDocument(max: Limit, s: Parse, markup: Markup, z: string)
    requires ValidParse(max, s) && s.partial != NoMarkup && Completes(max, s.partial, markup, z)
    ensures IsDocument(max, ParseText(s) + z)
  {
    var item, before, u := Item(s.text, markup), ItemsText(s.items) + s.text, PartialText(s.partial);
    var d := Document(s.items + [item], "");
    ItemsSnoc(max, s.items, item);
    DoneValid(max, s.items, item);
    hide MarkupText, PartialText, ItemsText, ValidItems;
    Associate(before, u, z);
    assert DocumentText(d) == before + (u + z);
  }

  /** Input read without error, and not doomed, can be continued to a legal document. */
  lemma Continuable(max: Limit, w: string) returns (z: string)
    requires Run(max, START, w).error == NoError && !Doomed(max, Run(max, START, w))
    ensures IsDocument(max, w + z)
  {
    var s := ReadingOf(max, w);
    assert Closable(max, s.partial);
    if s.partial == NoMarkup {
      var d := Document(s.items, s.text);
      z := "";
      assert ValidDocument(max, d);
      assert DocumentText(d) == DocumentText(d) + "" == w + z;
    } else {
      hide Run, Completes, Closable;
      var markup;
      markup, z := CloseMarkup(max, s.partial);
      ClosedDocument(max, s, markup, z);
    }
  }

  /** Once doomed, every further byte keeps the comment open and doomed, or raises the error. */
  lemma DoomedStep(max: Limit, m: Config, c: char)
    requires m.error == NoError && |m.buffer| <= max && Doomed(max, m)
    ensures var m' := Step(max, m, c);
            m'.error != NoError || (|m'.buffer| <= max && Doomed(max, m'))
  {
    assert Step(max, m, c) == StepComment(max, m, c);
    Terminators();
    EndsSnoc(m.buffer, c, "--", '>');
    EndsSnoc(m.buffer, c, "-", '-');
    EndsSnoc(m.buffer, c, "", '-');
    assert EndsWith(m.buffer, "");
    hide Step, EndsWith;
  }

  lemma {:induction false} DoomedRun(max: Limit, m: Config, z: string)
    requires m.error == NoError && |m.buffer| <= max && Doomed(max, m)
    ensures var m' := Run(max, m, z); m'.error != NoError || m'.state == State.Comment
    decreases |z|
  {
    hide Step;
    if z != "" {
      DoomedStep(max, m, z[0]);
      var m' := Step(max, m, z[0]);
      if m'.error == NoError {
        DoomedRun(max, m', z[1..]);
      } else {
        ErrorLatches(max, m', z[1..]);
      }
    }
  }

  /** The input is the beginning of some legal document exactly when it is read without error and not doomed. */
  lemma ViablePrefix(max: Limit, w: string)
    ensures (exists z: string :: IsDocument(max, w + z))
            <==> Run(max, START, w).error == NoError && !Doomed(max, Run(max, START, w))
  {
    var m := Run(max, START, w);
    if m.error == NoError && !Doomed(max, m) {
      var z := Continuable(max, w);
    }
    forall z: string | IsDocument(max, w + z)
      ensures m.error == NoError && !Doomed(max, m)
    {
      AcceptsExactlyTheGrammar(max, w + z);
      RunConcat(max, START, w, z);
      if m.error != NoError {
        ErrorLatches(max, m, z);
      } else if Doomed(max, m) {
        var s := ReadingOf(max, w);
        DoomedRun(max, m, z);
      }
    }
  }
}
