/** The tokenizer's byte machine as a function from configuration to configuration. */
module Machine {
  import opened Characters
  import opened Sequences
  import opened Tokens

  datatype State =
    | Text
    | AfterOpen
    | StartTagName
    | StartTagBody
    | AttributeName
    | AttributeAfterName
    | AttributeValueStart
    | AttributeValue
    | EndTagName
    | EndTagBody
    | DeclarationName
    | DeclarationBody
    | DeclarationAttributeName
    | DeclarationAttributeAfterName
    | DeclarationAttributeValueStart
    | DeclarationAttributeValue
    | DeclarationQuestion
    | SelfClosing
    | Special
    | Comment
    | CData

  /** The fields that survive between calls, and everything reported to the observer so far. */
  datatype Config = Config(
    state: State,
    buffer: string,
    attributeName: string,
    specialPrefix: string,
    quote: char,
    error: TokenizationError,
    currentToken: XmlToken,
    tokens: seq<XmlToken>,
    errors: seq<TokenizationError>)

  const EMPTY_TOKEN := XmlToken(TokenType.OpenTag, "", map[])

  const START := Config(State.Text, "", "", "", 0 as char, NoError, EMPTY_TOKEN, [], [])

  const CDATA_PREFIX := "[CDATA["

  function Fail(m: Config, e: TokenizationError): Config {
    m.(error := e, errors := m.errors + [e])
  }

  function Emit(m: Config, t: XmlToken): Config {
    m.(tokens := m.tokens + [t])
  }

  function EmitText(m: Config, text: string): Config {
    if text == "" then m else Emit(m, TextToken(text))
  }

  /** Append to the buffer, failing once it exceeds the limit. */
  function Grow(max: Limit, m: Config, c: char): Config {
    var m' := m.(buffer := m.buffer + [c]);
    if |m'.buffer| > max then Fail(m', BufferSizeExhausted) else m'
  }

  /** Move the buffer into the current token's content. */
  function Name(m: Config, next: State): Config {
    m.(currentToken := m.currentToken.(content := m.buffer), buffer := "", state := next)
  }

  function EmitCurrent(m: Config): Config {
    Emit(m, m.currentToken).(state := State.Text)
  }

  function StepAfterOpen(m0: Config, c: char): Config {
    var m := m0.(currentToken := EMPTY_TOKEN);
    if c == '/' then
      m.(buffer := "", currentToken := m.currentToken.(kind := TokenType.CloseTag), state := State.EndTagName)
    else if c == '?' then
      m.(buffer := "", currentToken := m.currentToken.(kind := TokenType.Declaration), state := State.DeclarationName)
    else if c == '!' then
      m.(specialPrefix := "", state := State.Special)
    else if IsNameChar(c) then
      m.(buffer := [c], currentToken := m.currentToken.(kind := TokenType.OpenTag), state := State.StartTagName)
    else
      Fail(m, MalformedInput)
  }

  function StepTagName(max: Limit, m: Config, c: char): Config {
    if IsNameChar(c) then Grow(max, m, c)
    else if IsSpace(c) then
      if m.buffer == "" then Fail(m, MalformedInput) else Name(m, State.StartTagBody)
    else if c == '>' then
      if m.buffer == "" then Fail(m, MalformedInput) else EmitCurrent(Name(m, State.Text))
    else if c == '/' then
      if m.buffer == "" then Fail(m, MalformedInput) else Name(m, State.SelfClosing)
    else Fail(m, MalformedInput)
  }

  function StepTagBody(m: Config, c: char): Config {
    if IsSpace(c) then m
    else if c == '>' then EmitCurrent(m)
    else if c == '/' then m.(state := State.SelfClosing)
    else if IsNameChar(c) then m.(buffer := [c], state := State.AttributeName)
    else Fail(m, MalformedInput)
  }

  function StepAttributeName(max: Limit, m: Config, c: char, after: State, value: State): Config {
    if IsNameChar(c) then Grow(max, m, c)
    else if IsSpace(c) then m.(attributeName := m.buffer, buffer := "", state := after)
    else if c == '=' then m.(attributeName := m.buffer, buffer := "", state := value)
    else Fail(m, MalformedInput)
  }

  function StepAttributeAfterName(m: Config, c: char, value: State): Config {
    if IsSpace(c) then m
    else if c == '=' then m.(state := value)
    else Fail(m, MalformedInput)
  }

  function StepAttributeValueStart(m: Config, c: char, value: State): Config {
    if IsSpace(c) then m
    else if c == '\'' || c == '"' then m.(quote := c, buffer := "", state := value)
    else Fail(m, MalformedInput)
  }

  function StepAttributeValue(max: Limit, m: Config, c: char, body: State): Config {
    if c == m.quote then
      var attributes := m.currentToken.attributes[m.attributeName := m.buffer];
      m.(currentToken := m.currentToken.(attributes := attributes), attributeName := "", buffer := "", state := body)
    else Grow(max, m, c)
  }

  function StepEndTagName(max: Limit, m: Config, c: char): Config {
    if IsNameChar(c) then Grow(max, m, c)
    else if IsSpace(c) then Name(m, State.EndTagBody)
    else if c == '>' then
      if m.buffer == "" then Fail(m, MalformedInput) else EmitCurrent(Name(m, State.Text))
    else Fail(m, MalformedInput)
  }

  function StepDeclarationName(max: Limit, m: Config, c: char): Config {
    if IsNameChar(c) then Grow(max, m, c)
    else if IsSpace(c) then
      if m.buffer == "" then Fail(m, MalformedInput) else Name(m, State.DeclarationBody)
    else if c == '?' then
      if m.buffer == "" then Fail(m, MalformedInput) else Name(m, State.DeclarationQuestion)
    else Fail(m, MalformedInput)
  }

  function StepDeclarationBody(m: Config, c: char): Config {
    if IsSpace(c) then m
    else if c == '?' then m.(state := State.DeclarationQuestion)
    else if IsNameChar(c) then m.(buffer := [c], state := State.DeclarationAttributeName)
    else Fail(m, MalformedInput)
  }

  function StepSpecial(m: Config, c: char): Config {
    var prefix := m.specialPrefix + [c];
    var m := m.(specialPrefix := prefix);
    if prefix == "--" then m.(buffer := "", state := State.Comment)
    else if prefix == CDATA_PREFIX then m.(buffer := "", state := State.CData)
    else if prefix <= "--" || prefix <= CDATA_PREFIX then m
    else Fail(m, MalformedInput)
  }

  function StepComment(max: Limit, m: Config, c: char): Config {
    var b := m.buffer + [c];
    if EndsWith(b, "-->") then
      Emit(m, XmlToken(TokenType.Comment, b[..|b| - 3], map[])).(buffer := "", state := State.Text)
    else Grow(max, m, c)
  }

  function StepCData(max: Limit, m: Config, c: char): Config {
    var b := m.buffer + [c];
    if EndsWith(b, "]]>") then
      EmitText(m, b[..|b| - 3]).(buffer := "", state := State.Text)
    else if |b| >= max then
      EmitText(m, b[..|b| - 2]).(buffer := b[|b| - 2..])
    else m.(buffer := b)
  }

  function StepText(max: Limit, m: Config, c: char): Config {
    if c == '<' then EmitText(m, m.buffer).(buffer := "", state := State.AfterOpen)
    else
      var b := m.buffer + [c];
      if |b| >= max then EmitText(m, b).(buffer := "") else m.(buffer := b)
  }

  /** One byte. An error latches: nothing changes after it. */
  function Step(max: Limit, m: Config, c: char): Config {
    if m.error != NoError then m else
    match m.state
    case Text => StepText(max, m, c)
    case AfterOpen => StepAfterOpen(m, c)
    case StartTagName => StepTagName(max, m, c)
    case StartTagBody => StepTagBody(m, c)
    case AttributeName =>
      StepAttributeName(max, m, c, State.AttributeAfterName, State.AttributeValueStart)
    case AttributeAfterName => StepAttributeAfterName(m, c, State.AttributeValueStart)
    case AttributeValueStart => StepAttributeValueStart(m, c, State.AttributeValue)
    case AttributeValue => StepAttributeValue(max, m, c, State.StartTagBody)
    case EndTagName => StepEndTagName(max, m, c)
    case EndTagBody =>
      if IsSpace(c) then m else if c == '>' then EmitCurrent(m) else Fail(m, MalformedInput)
    case DeclarationName => StepDeclarationName(max, m, c)
    case DeclarationBody => StepDeclarationBody(m, c)
    case DeclarationAttributeName =>
      StepAttributeName(max, m, c, State.DeclarationAttributeAfterName, State.DeclarationAttributeValueStart)
    case DeclarationAttributeAfterName => StepAttributeAfterName(m, c, State.DeclarationAttributeValueStart)
    case DeclarationAttributeValueStart => StepAttributeValueStart(m, c, State.DeclarationAttributeValue)
    case DeclarationAttributeValue => StepAttributeValue(max, m, c, State.DeclarationBody)
    case DeclarationQuestion =>
      if c == '>' then EmitCurrent(m) else Fail(m, MalformedInput)
    case SelfClosing =>
      if c == '>' then EmitCurrent(m.(currentToken := m.currentToken.(kind := TokenType.EmptyTag)))
      else Fail(m, MalformedInput)
    case Special => StepSpecial(m, c)
    case Comment => StepComment(max, m, c)
    case CData => StepCData(max, m, c)
  }

  /** Feed a byte string. */
  function Run(max: Limit, m: Config, w: string): Config
    decreases |w|
  {
    if w == "" then m else Run(max, Step(max, m, w[0]), w[1..])
  }

  /** Splitting the input anywhere makes no difference. */
  lemma {:induction false} RunConcat(max: Limit, m: Config, a: string, b: string)
    ensures Run(max, m, a + b) == Run(max, Run(max, m, a), b)
    decreases |a|
  {
    if a == "" {
      assert a + b == b;
    } else {
      assert (a + b)[1..] == a[1..] + b;
      RunConcat(max, Step(max, m, a[0]), a[1..], b);
    }
  }

  lemma RunSnoc(max: Limit, m: Config, w: string, c: char)
    ensures Run(max, m, w + [c]) == Step(max, Run(max, m, w), c)
  {
    RunConcat(max, m, w, [c]);
    assert [c][1..] == "";
  }

  /** Feed one `process` call after the other. */
  function RunChunks(max: Limit, m: Config, chunks: seq<string>): Config
    decreases |chunks|
  {
    if chunks == [] then m else RunChunks(max, Run(max, m, chunks[0]), chunks[1..])
  }

  /** Any split of the input into calls gives the tokens, errors and fields of one call. */
  lemma {:induction false} ChunkIndependence(max: Limit, m: Config, chunks: seq<string>)
    ensures RunChunks(max, m, chunks) == Run(max, m, Join(chunks))
    decreases |chunks|
  {
    if chunks != [] {
      RunConcat(max, m, chunks[0], Join(chunks[1..]));
      ChunkIndependence(max, Run(max, m, chunks[0]), chunks[1..]);
    }
  }

  lemma {:induction false} ErrorLatches(max: Limit, m: Config, w: string)
    requires m.error != NoError
    ensures Run(max, m, w) == m
    decreases |w|
  {
    if w != "" { ErrorLatches(max, m, w[1..]); }
  }

  /** The observer hears of at most one error, and only the one that is latched. */
  ghost predicate ErrorsMatch(m: Config) {
    m.errors == if m.error == NoError then [] else [m.error]
  }

  lemma StepErrors(max: Limit, m: Config, c: char)
    requires ErrorsMatch(m)
    ensures ErrorsMatch(Step(max, m, c))
  {
    if m.error == NoError {
      match m.state
      case StartTagName =>
      case AttributeName =>
      case EndTagName =>
      case DeclarationName =>
      case DeclarationAttributeName =>
      case CData =>
      case _ =>
    }
  }

  lemma {:induction false} OneError(max: Limit, m: Config, w: string)
    requires ErrorsMatch(m)
    ensures ErrorsMatch(Run(max, m, w))
    decreases |w|
  {
    hide Step;
    if w != "" {
      StepErrors(max, m, w[0]);
      OneError(max, Step(max, m, w[0]), w[1..]);
    }
  }

  /** After the byte that fails, no split of the rest reaches the observer: tokens and errors are frozen. */
  lemma NothingAfterError(max: Limit, before: string, after: string)
    requires Run(max, START, before).error != NoError
    ensures Run(max, START, before + after) == Run(max, START, before)
    ensures Run(max, START, before + after).errors == [Run(max, START, before).error]
  {
    RunConcat(max, START, before, after);
    ErrorLatches(max, Run(max, START, before), after);
    OneError(max, START, before);
  }
}
