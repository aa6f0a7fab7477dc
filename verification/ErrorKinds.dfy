/** What the kind of an error says: whether a larger buffer would have read the byte. */
module ErrorKinds {
  import opened Characters
  import opened Sequences
  import opened Tokens
  import opened Machine
  import opened TokenizerProperties

  /** What CDATA remembers of its buffer. */
  function Tail(b: string): string {
    if |b| < 2 then b else b[|b| - 2..]
  }

  /** Two error-free configurations that differ at most in text not yet reported. */
  predicate Alike(m: Config, n: Config) {
    && m.error == n.error == NoError
    && m.state == n.state && m.attributeName == n.attributeName && m.specialPrefix == n.specialPrefix
    && m.quote == n.quote && m.currentToken == n.currentToken
    && (m.state == State.CData ==> Tail(m.buffer) == Tail(n.buffer))
    && (m.state != State.CData && m.state != State.Text ==> m.buffer == n.buffer)
  }

  /** The outcome of one byte under a limit and under a larger one. */
  predicate Compares(m: Config, n: Config) {
    || Alike(m, n)
    || m.error == n.error == MalformedInput
    || (m.error == BufferSizeExhausted && n.error == NoError)
  }

  lemma TailSnoc(b: string, c: char)
    ensures Tail(b + [c]) == Tail(Tail(b) + [c])
  {
    if |b| >= 2 {
      assert (b + [c])[|b| - 1..] == [b[|b| - 1], c];
      assert (Tail(b) + [c])[1..] == [b[|b| - 1], c];
    }
  }

  lemma TailEnds(b: string, c: char)
    ensures EndsWith(b + [c], "]]>") <==> Tail(b) == "]]" && c == '>'
  {
    var t := b + [c];
    if |b| >= 2 {
      assert Tail(b) == [b[|b| - 2], b[|b| - 1]];
      assert t[|t| - 3 + 0] == b[|b| - 2] && t[|t| - 3 + 1] == b[|b| - 1] && t[|t| - 3 + 2] == c;
      assert "]]>"[0] == ']' && "]]>"[1] == ']' && "]]>"[2] == '>';
    }
  }

  lemma TailOfRest(b: string)
    requires |b| >= 2
    ensures Tail(b[|b| - 2..]) == Tail(b)
  {}

  /** What a byte does in CDATA, whatever has been flushed. */
  lemma CDataTail(max: Limit, m: Config, c: char)
    requires m.state == State.CData
    ensures var m' := StepCData(max, m, c);
            && m' == m.(state := m'.state, buffer := m'.buffer, tokens := m'.tokens)
            && m'.state == (if Tail(m.buffer) == "]]" && c == '>' then State.Text else State.CData)
            && (m'.state == State.CData ==> Tail(m'.buffer) == Tail(Tail(m.buffer) + [c]))
  {
    TailEnds(m.buffer, c);
    TailSnoc(m.buffer, c);
    if |m.buffer + [c]| >= 2 { TailOfRest(m.buffer + [c]); }
    hide EndsWith, Tail;
  }

  lemma CDataCompares(max: Limit, larger: Limit, m: Config, n: Config, c: char)
    requires m.state == State.CData && Alike(m, n)
    ensures Alike(StepCData(max, m, c), StepCData(larger, n, c))
  {
    CDataTail(max, m, c);
    CDataTail(larger, n, c);
    hide StepCData, Tail;
  }

  /** Neither in text nor in CDATA, where the buffers are the same. */
  predicate Same(m: Config, n: Config) {
    Alike(m, n) && m.buffer == n.buffer && m.state != State.CData && m.state != State.Text
  }

  lemma GrowCompares(max: Limit, larger: Limit, m: Config, n: Config, c: char)
    requires max < larger && Same(m, n) && |m.buffer| <= max
    ensures Compares(Grow(max, m, c), Grow(larger, n, c))
  {}

  lemma NamesCompare(max: Limit, larger: Limit, m: Config, n: Config, c: char)
    requires max < larger && Same(m, n) && |m.buffer| <= max
    ensures Compares(StepTagName(max, m, c), StepTagName(larger, n, c))
    ensures Compares(StepEndTagName(max, m, c), StepEndTagName(larger, n, c))
    ensures Compares(StepDeclarationName(max, m, c), StepDeclarationName(larger, n, c))
  {
    GrowCompares(max, larger, m, n, c);
    hide IsNameChar, IsSpace, Grow;
  }

  lemma AttributeNamesCompare(max: Limit, larger: Limit, m: Config, n: Config, c: char, after: State, value: State)
    requires max < larger && Same(m, n) && |m.buffer| <= max
    ensures Compares(StepAttributeName(max, m, c, after, value), StepAttributeName(larger, n, c, after, value))
  {
    hide IsNameChar, IsSpace, Grow, Tail;
    if IsNameChar(c) {
      GrowCompares(max, larger, m, n, c);
    } else if IsSpace(c) || c == '=' {
      var next := if IsSpace(c) then after else value;
      assert Alike(m.(attributeName := m.buffer, buffer := "", state := next),
                   n.(attributeName := n.buffer, buffer := "", state := next));
    }
  }

  lemma AttributeValuesCompare(max: Limit, larger: Limit, m: Config, n: Config, c: char, body: State)
    requires max < larger && Same(m, n) && |m.buffer| <= max
    ensures Compares(StepAttributeValue(max, m, c, body), StepAttributeValue(larger, n, c, body))
  {
    hide Grow, Tail;
    if c != m.quote { GrowCompares(max, larger, m, n, c); }
  }

  lemma CommentCompares(max: Limit, larger: Limit, m: Config, n: Config, c: char)
    requires max < larger && Same(m, n) && |m.buffer| <= max
    ensures Compares(StepComment(max, m, c), StepComment(larger, n, c))
  {
    GrowCompares(max, larger, m, n, c);
    hide EndsWith, Grow;
  }

  lemma TextCompares(max: Limit, larger: Limit, m: Config, n: Config, c: char)
    requires Alike(m, n) && m.state == State.Text
    ensures Compares(StepText(max, m, c), StepText(larger, n, c))
  {}

  lemma OpeningsCompare(m: Config, n: Config, c: char)
    requires Same(m, n)
    ensures Compares(StepAfterOpen(m, c), StepAfterOpen(n, c))
    ensures Compares(StepSpecial(m, c), StepSpecial(n, c))
  {
    hide IsNameChar;
  }

  lemma BodiesCompare(m: Config, n: Config, c: char, next: State)
    requires Same(m, n) && next != State.CData && next != State.Text
    ensures Compares(StepTagBody(m, c), StepTagBody(n, c))
    ensures Compares(StepDeclarationBody(m, c), StepDeclarationBody(n, c))
    ensures Compares(StepAttributeAfterName(m, c, next), StepAttributeAfterName(n, c, next))
    ensures Compares(StepAttributeValueStart(m, c, next), StepAttributeValueStart(n, c, next))
  {
    hide IsNameChar, IsSpace;
  }

  lemma StepCompares(max: Limit, larger: Limit, m: Config, n: Config, c: char)
    requires max < larger && Alike(m, n) && |m.buffer| <= max
    ensures Compares(Step(max, m, c), Step(larger, n, c))
  {
    hide IsNameChar, IsSpace, StepText, StepCData, StepComment, StepTagName, StepEndTagName, StepDeclarationName;
    hide StepAttributeName, StepAttributeValue, StepAfterOpen, StepSpecial, StepTagBody, StepDeclarationBody;
    hide StepAttributeAfterName, StepAttributeValueStart, Tail;
    match m.state
    case Text => TextCompares(max, larger, m, n, c);
    case CData => CDataCompares(max, larger, m, n, c);
    case Comment => CommentCompares(max, larger, m, n, c);
    case StartTagName => NamesCompare(max, larger, m, n, c);
    case EndTagName => NamesCompare(max, larger, m, n, c);
    case DeclarationName => NamesCompare(max, larger, m, n, c);
    case AttributeName =>
      AttributeNamesCompare(max, larger, m, n, c, State.AttributeAfterName, State.AttributeValueStart);
    case DeclarationAttributeName =>
      AttributeNamesCompare(max, larger, m, n, c, State.DeclarationAttributeAfterName,
                            State.DeclarationAttributeValueStart);
    case AttributeValue => AttributeValuesCompare(max, larger, m, n, c, State.StartTagBody);
    case DeclarationAttributeValue => AttributeValuesCompare(max, larger, m, n, c, State.DeclarationBody);
    case AfterOpen => OpeningsCompare(m, n, c);
    case Special => OpeningsCompare(m, n, c);
    case AttributeAfterName => BodiesCompare(m, n, c, State.AttributeValueStart);
    case DeclarationAttributeAfterName => BodiesCompare(m, n, c, State.DeclarationAttributeValueStart);
    case AttributeValueStart => BodiesCompare(m, n, c, State.AttributeValue);
    case DeclarationAttributeValueStart => BodiesCompare(m, n, c, State.DeclarationAttributeValue);
    case StartTagBody => BodiesCompare(m, n, c, State.AttributeValue);
    case DeclarationBody => BodiesCompare(m, n, c, State.AttributeValue);
    case _ =>
  }

  lemma StartAlike()
    ensures Alike(START, START)
  {}

  /** Reading without error does not depend on the limit, but for text not yet reported. */
  lemma {:induction false} RunsAlike(max: Limit, larger: Limit, w: string)
    requires max < larger && Run(max, START, w).error == NoError
    ensures Alike(Run(max, START, w), Run(larger, START, w))
    decreases |w|
  {
    hide Step, Alike;
    if w == "" {
      StartAlike();
    } else {
      var v, c := w[..|w| - 1], w[|w| - 1];
      assert w == v + [c];
      RunSnoc(max, START, v, c);
      RunSnoc(larger, START, v, c);
      if Run(max, START, v).error != NoError {
        RunConcat(max, START, v, [c]);
        ErrorLatches(max, Run(max, START, v), [c]);
      }
      RunsAlike(max, larger, v);
      ReachableInvariant(max, v);
      hide Run;
      StepCompares(max, larger, Run(max, START, v), Run(larger, START, v), c);
    }
  }

  /** Of the byte at which a run fails under one limit: what a larger one makes of it. */
  lemma FailureUnderLarger(max: Limit, larger: Limit, w: string, c: char)
    requires max < larger && Run(max, START, w).error == NoError
    ensures var m, n := Run(max, START, w + [c]), Run(larger, START, w + [c]);
            && (m.error == MalformedInput ==> n.error == MalformedInput)
            && (m.error == BufferSizeExhausted ==> n.error == NoError)
  {
    RunsAlike(max, larger, w);
    ReachableInvariant(max, w);
    RunSnoc(max, START, w, c);
    RunSnoc(larger, START, w, c);
    hide Run, Step;
    StepCompares(max, larger, Run(max, START, w), Run(larger, START, w), c);
  }

  /**
   * The byte at which the tokenizer fails is malformed exactly when no larger limit would read it,
   * and exhausts the buffer exactly when one, and then every one, would.
   */
  lemma ErrorKindExactly(max: Limit, w: string, c: char)
    requires Run(max, START, w).error == NoError
    ensures Run(max, START, w + [c]).error == MalformedInput <==>
            forall larger: Limit | larger >= max :: Run(larger, START, w + [c]).error != NoError
    ensures Run(max, START, w + [c]).error == BufferSizeExhausted <==>
            Run(max, START, w + [c]).error != NoError &&
            exists larger: Limit | larger > max :: Run(larger, START, w + [c]).error == NoError
  {
    hide Run;
    var next: Limit := max + 1;
    FailureUnderLarger(max, next, w, c);
    forall larger: Limit | larger > max
      ensures Run(max, START, w + [c]).error == MalformedInput ==> Run(larger, START, w + [c]).error == MalformedInput
    {
      FailureUnderLarger(max, larger, w, c);
    }
    assert Run(max, START, w + [c]).error == BufferSizeExhausted ==> Run(next, START, w + [c]).error == NoError;
  }
}
