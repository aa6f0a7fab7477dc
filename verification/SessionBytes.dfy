/** Which reply logs can be drawn from a session by bytes. */
module SessionBytes {
  import opened Sequences
  import opened Tokens
  import opened Machine
  import opened Grammar
  import opened Recognition
  import opened SessionSteps
  import opened SessionLanguage
  import opened SessionStream

  /** A connection that is secure stays secure. */
  predicate StaysSecure(rs: seq<Read>) {
    forall i, j | 0 <= i < j < |rs| :: rs[i].env.secure ==> rs[j].env.secure
  }

  ghost predicate IsByteLog(max: Limit, h: seq<Reply>) {
    exists rs: seq<Read> :: StaysSecure(rs) && Reads(max, START, Start(CREATED), rs).replies == h
  }

  /** A tag without attributes, as the server's own inputs need no others. */
  predicate IsPlainTag(max: Limit, t: XmlToken) {
    && (t.kind == TokenType.OpenTag || t.kind == TokenType.EmptyTag || t.kind == TokenType.CloseTag)
    && t.attributes == map[]
    && ValidName(max, t.content)
  }

  predicate ArePlainTags(max: Limit, w: seq<Input>) {
    forall i | 0 <= i < |w| :: IsPlainTag(max, w[i].token)
  }

  function TagMarkup(t: XmlToken): Markup {
    if t.kind == TokenType.CloseTag then EndTag(t.content, "")
    else Element(Head(false, t.content, []), "", t.kind == TokenType.EmptyTag)
  }

  function TagItems(w: seq<Input>): seq<Item> {
    if w == [] then [] else TagItems(w[..|w| - 1]) + [Item("", TagMarkup(w[|w| - 1].token))]
  }

  /** Each tag in a read of its own. */
  function TagReads(w: seq<Input>): seq<Read> {
    if w == [] then []
    else TagReads(w[..|w| - 1]) + [Read(MarkupText(TagMarkup(w[|w| - 1].token)), w[|w| - 1].env)]
  }

  lemma {:induction false} SpreadSnoc(rs: seq<Read>, r: Read)
    ensures Spread(rs + [r]) == Spread(rs) + Bytes(r.bytes, r.env)
    decreases |rs|
  {
    if rs == [] {
      assert [] + [r] == [r] && [r][1..] == [];
      assert Bytes(r.bytes, r.env) + [] == Bytes(r.bytes, r.env);
    } else {
      assert (rs + [r])[1..] == rs[1..] + [r];
      SpreadSnoc(rs[1..], r);
      hide Bytes;
      Associate(Bytes(rs[0].bytes, rs[0].env), Spread(rs[1..]), Bytes(r.bytes, r.env));
    }
  }

  lemma {:induction false} CharsConcat(a: seq<Byte>, b: seq<Byte>)
    ensures Chars(a + b) == Chars(a) + Chars(b)
  {
    if a == [] {
      assert a + b == b;
    } else {
      assert (a + b)[1..] == a[1..] + b;
      CharsConcat(a[1..], b);
    }
  }

  lemma TagTokens(max: Limit, t: XmlToken)
    requires IsPlainTag(max, t)
    ensures MarkupTokens(max, TagMarkup(t)) == [t]
    ensures ValidItem(max, Item("", TagMarkup(t)))
  {}

  /** The tokens of a run of items, the input ending with the last. */
  lemma ItemsRun(max: Limit, items: seq<Item>)
    requires ValidItems(max, items)
    ensures Run(max, START, ItemsText(items)).tokens == ItemsTokens(max, items)
  {
    var d := Document(items, "");
    DocumentRun(max, d);
    hide Run, ItemsText, ItemsTokens;
    assert DocumentText(d) == ItemsText(items) && FullBlocks("", max) == [];
    assert TextTokens([]) == [];
  }

  /** One more tag adds its token. */
  lemma TagRun(max: Limit, items: seq<Item>, t: XmlToken)
    requires ValidItems(max, items) && IsPlainTag(max, t)
    ensures var m := Run(max, START, ItemsText(items));
            NewTokens(m, Run(max, m, MarkupText(TagMarkup(t)))) == [t]
  {
    hide Run, ItemsText, ItemsTokens, MarkupText, TagMarkup, MarkupTokens;
    var item := Item("", TagMarkup(t));
    TagTokens(max, t);
    ItemsRun(max, items);
    ItemsRun(max, items + [item]);
    ItemsSnoc(max, items, item);
    assert TextRunTokens(max, "") == [];
    assert ItemsText(items) + "" == ItemsText(items);
    RunConcat(max, START, ItemsText(items), MarkupText(item.markup));
  }

  lemma OneInput(t: XmlToken, env: Environment)
    ensures Inputs([t], env) == [Input(t, env)]
  {
    assert [t][1..] == [];
  }

  lemma {:induction false} TagReadsChars(max: Limit, w: seq<Input>)
    requires ArePlainTags(max, w)
    ensures ValidItems(max, TagItems(w)) && Chars(Spread(TagReads(w))) == ItemsText(TagItems(w))
    decreases |w|
  {
    if w != [] {
      var front, last := w[..|w| - 1], w[|w| - 1];
      TagReadsChars(max, front);
      TagTokens(max, last.token);
      hide ItemsText, MarkupText, TagMarkup, Spread, Chars, Bytes, ValidItem;
      var text := MarkupText(TagMarkup(last.token));
      SpreadSnoc(TagReads(front), Read(text, last.env));
      CharsConcat(Spread(TagReads(front)), Bytes(text, last.env));
      BytesChars(text, last.env);
      ItemsSnoc(max, TagItems(front), Item("", TagMarkup(last.token)));
      assert ItemsText(TagItems(front)) + "" == ItemsText(TagItems(front));
    }
  }

  lemma {:induction false} TagReadsEnvironments(w: seq<Input>)
    ensures |TagReads(w)| == |w| && forall i | 0 <= i < |w| :: TagReads(w)[i].env == w[i].env
    decreases |w|
  {
    hide MarkupText, TagMarkup;
    if w != [] { TagReadsEnvironments(w[..|w| - 1]); }
  }

  /** Read one by one, the texts of plain tags complete exactly those tags. */
  lemma {:induction false} TagReadsInputs(max: Limit, w: seq<Input>)
    requires ArePlainTags(max, w)
    ensures StreamInputs(max, START, Spread(TagReads(w))) == w
    decreases |w|
  {
    hide *;
    if w == [] {
      NoTags(max);
    } else {
      var front, last := w[..|w| - 1], w[|w| - 1];
      LastTag(max, w);
      TagReadsInputs(max, front);
      TagReadsChars(max, front);
      OneTagMore(max, TagReads(front), TagItems(front), last);
    }
  }

  lemma NoTags(max: Limit)
    ensures StreamInputs(max, START, Spread(TagReads([]))) == []
  {}

  lemma LastTag(max: Limit, w: seq<Input>)
    requires w != [] && ArePlainTags(max, w)
    ensures var front, last := w[..|w| - 1], w[|w| - 1];
            && ArePlainTags(max, front) && IsPlainTag(max, last.token) && w == front + [last]
            && TagReads(w) == TagReads(front) + [Read(MarkupText(TagMarkup(last.token)), last.env)]
  {
    hide IsPlainTag, MarkupText, TagMarkup;
  }

  /** After reads of whole items, reading one more tag completes that tag. */
  lemma OneTagMore(max: Limit, rs: seq<Read>, items: seq<Item>, i: Input)
    requires ValidItems(max, items) && Chars(Spread(rs)) == ItemsText(items) && IsPlainTag(max, i.token)
    ensures StreamInputs(max, START, Spread(rs + [Read(MarkupText(TagMarkup(i.token)), i.env)])) ==
            StreamInputs(max, START, Spread(rs)) + [i]
  {
    hide *;
    var text := MarkupText(TagMarkup(i.token));
    SpreadSnoc(rs, Read(text, i.env));
    StreamInputsConcat(max, START, Spread(rs), Bytes(text, i.env));
    ReadInputs(max, Run(max, START, ItemsText(items)), text, i.env);
    TagRun(max, items, i.token);
    OneInput(i.token, i.env);
  }

  // ----- the words

  /** The longest name in the inputs that draw the words. */
  const LONGEST_NAME: nat := |STREAM|

  predicate ArePlain(max: Limit, w: seq<Input>) {
    ArePlainTags(max, w) && forall i | 0 <= i < |w| :: w[i].env == PLAIN
  }

  lemma SayingIsPlain(max: Limit, kind: TokenType, name: string, env: Environment)
    requires max >= LONGEST_NAME && (name == STREAM || name == STARTTLS)
    requires kind == TokenType.OpenTag || kind == TokenType.EmptyTag || kind == TokenType.CloseTag
    ensures ArePlainTags(max, [Saying(kind, name, env)])
  {}

  lemma {:induction false} OpenStreamIsPlain(max: Limit, n: nat)
    requires max >= LONGEST_NAME
    ensures ArePlain(max, OpenStream(n))
  {
    SayingIsPlain(max, TokenType.OpenTag, STREAM, PLAIN);
    hide IsPlainTag;
    if n > 0 {
      OpenStreamIsPlain(max, n - 1);
      SayingIsPlain(max, TokenType.EmptyTag, STARTTLS, PLAIN);
      assert OpenStream(n) == OpenStream(n - 1) + [Saying(TokenType.EmptyTag, STARTTLS, PLAIN)];
      hide OpenStream;
    }
  }

  lemma {:induction false} WholeStreamsArePlain(max: Limit, ns: seq<nat>)
    requires max >= LONGEST_NAME
    ensures ArePlain(max, WholeStreams(ns))
    decreases |ns|
  {
    if ns != [] {
      WholeStreamsArePlain(max, ns[..|ns| - 1]);
      OpenStreamIsPlain(max, ns[|ns| - 1]);
      SayingIsPlain(max, TokenType.CloseTag, STREAM, PLAIN);
      hide IsPlainTag, OpenStream;
    }
  }

  /** Only the last input of an ending may be handled on a secure connection. */
  lemma EndingIsPlain(max: Limit, e: Ending)
    requires max >= LONGEST_NAME
    ensures var w := EndingInputs(e);
            ArePlainTags(max, w) && forall i | 0 <= i < |w| - 1 :: w[i].env == PLAIN
  {
    if e.Within? || e.Rejected? { OpenStreamIsPlain(max, e.proceeds); }
    SayingIsPlain(max, TokenType.CloseTag, STREAM, PLAIN);
    SayingIsPlain(max, TokenType.OpenTag, STREAM, SECURED);
    SayingIsPlain(max, TokenType.OpenTag, STREAM, PLAIN);
    SayingIsPlain(max, TokenType.EmptyTag, STREAM, PLAIN);
    hide IsPlainTag, OpenStream;
  }

  lemma WordInputsArePlain(max: Limit, ns: seq<nat>, e: Ending)
    requires max >= LONGEST_NAME
    ensures var w := WordInputs(ns, e);
            ArePlainTags(max, w) && forall i | 0 <= i < |w| - 1 :: w[i].env == PLAIN
  {
    WholeStreamsArePlain(max, ns);
    EndingIsPlain(max, e);
    hide IsPlainTag, WholeStreams, EndingInputs;
  }

  /**
   * The logs that byte streams draw, in whatever reads, are exactly the words of the reply language,
   * even when security once reached is never lost.
   */
  lemma ByteLogsExactly(max: Limit, h: seq<Reply>)
    requires max >= LONGEST_NAME
    ensures IsByteLog(max, h) <==> IsWord(h)
  {
    hide Reads, Respond, StreamInputs, WordInputs, Log;
    if IsByteLog(max, h) {
      var rs: seq<Read> :| StaysSecure(rs) && Reads(max, START, Start(CREATED), rs).replies == h;
      BytesAnsweredInLanguage(max, rs);
    }
    if IsWord(h) {
      var ns: seq<nat>, e: Ending :| h == Log(ns, e);
      var w := WordInputs(ns, e);
      WordInputsArePlain(max, ns, e);
      TagReadsInputs(max, w);
      TagReadsEnvironments(w);
      ReadsAnswer(max, TagReads(w));
      WordReplies(ns, e);
      assert StaysSecure(TagReads(w));
    }
  }
}
