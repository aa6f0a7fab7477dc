/** The language of a session's replies, and what each reply answers. */
module SessionLanguage {
  import opened Counting
  import opened Sequences
  import opened Tokens
  import opened XmlTree
  import opened SessionSteps
  import opened SessionLifecycle

  /** A token and the surroundings it is handled in. */
  datatype Input = Input(token: XmlToken, env: Environment)

  /** Handle tokens one by one until the session is done. */
  function Respond(s: Session, w: seq<Input>): Session
    decreases |w|
  {
    if w == [] || IsDone(s) then s else Respond(OnXmlToken(s, w[0].token, w[0].env), w[1..])
  }

  lemma {:induction false} RespondConcat(s: Session, a: seq<Input>, b: seq<Input>)
    ensures Respond(s, a + b) == Respond(Respond(s, a), b)
    decreases |a|
  {
    if a == [] {
      assert a + b == b;
    } else if !IsDone(s) {
      assert (a + b)[1..] == a[1..] + b;
      RespondConcat(OnXmlToken(s, a[0].token, a[0].env), a[1..], b);
    } else if b != [] {
      assert Respond(s, b) == s;
    }
  }

  lemma RespondSnoc(s: Session, w: seq<Input>, i: Input)
    ensures Respond(s, w + [i]) ==
            if IsDone(Respond(s, w)) then Respond(s, w) else OnXmlToken(Respond(s, w), i.token, i.env)
  {
    RespondConcat(s, w, [i]);
    assert [i][1..] == [];
  }

  // ----- the language

  /** How a log ends: after a complete stream, inside an open one, or with the error that ended the session. */
  datatype Ending =
    | Between
    | Within(proceeds: nat)
    | NotAStream
    | NotImplemented
    | Rejected(proceeds: nat, restart: bool)

  function Proceeds(n: nat): seq<Reply> {
    if n == 0 then [] else Proceeds(n - 1) + [Proceed]
  }

  function StreamSoFar(n: nat): seq<Reply> {
    [StreamHeader, Features] + Proceeds(n)
  }

  /** Complete streams, each with its number of proceeds. */
  function Streams(ns: seq<nat>): seq<Reply> {
    if ns == [] then [] else Streams(ns[..|ns| - 1]) + StreamSoFar(ns[|ns| - 1]) + [StreamEnd]
  }

  function EndingText(e: Ending): seq<Reply> {
    match e
    case Between => []
    case Within(n) => StreamSoFar(n)
    case NotAStream => [BadFormatError]
    case NotImplemented => [StreamHeader, InternalError]
    case Rejected(n, restart) => StreamSoFar(n) + [if restart then RestartError else TlsRequiredError]
  }

  /** (header, features, proceed*, end)*, then an ending. */
  function Log(ns: seq<nat>, e: Ending): seq<Reply> {
    Streams(ns) + EndingText(e)
  }

  predicate EndingOf(s: Session, e: Ending) {
    match e
    case Between => s.handler == NoHandler
    case Within(_) => s.handler == Negotiation
    case _ => s.shutDown
  }

  ghost predicate Speaks(s: Session, ns: seq<nat>, e: Ending) {
    Books(s) && s.replies == Log(ns, e) && EndingOf(s, e)
  }

  /** Whether a log that ends like this is inside a stream. */
  predicate IsInside(e: Ending) {
    !e.Between? && !e.NotAStream?
  }

  lemma BetweenSpeaks(s: Session, t: XmlToken, env: Environment, ns: seq<nat>) returns (e: Ending)
    requires Speaks(s, ns, Between) && !IsDone(s)
    ensures Speaks(OnXmlToken(s, t, env), ns, e) && (IsInside(e) <==> Opens(t))
  {
    TokenBooks(s, t, env);
    e := if t.kind == TokenType.Comment || t.kind == TokenType.Declaration || IsBlankText(t) then Between
         else if !Opens(t) then NotAStream
         else if env.secure then NotImplemented
         else Within(0);
    assert s.replies == Streams(ns);
    assert StreamSoFar(0) == [StreamHeader] + [Features];
    assert EndingText(NotImplemented) == [StreamHeader] + [InternalError];
    Associate(Streams(ns), [StreamHeader], [if env.secure then InternalError else Features]);
    hide Streams, IsBlankText, Opens, Books, StreamSoFar;
  }

  lemma ProceedsSnoc(ns: seq<nat>, n: nat)
    ensures Log(ns, Within(n)) + [Proceed] == Log(ns, Within(n + 1))
    ensures Log(ns, Within(n)) + [StreamEnd] == Log(ns + [n], Between)
    ensures Log(ns, Within(n)) + [RestartError] == Log(ns, Rejected(n, true))
    ensures Log(ns, Within(n)) + [TlsRequiredError] == Log(ns, Rejected(n, false))
  {
    assert (ns + [n])[..|ns + [n]| - 1] == ns;
  }

  lemma WithinSpeaks(s: Session, t: XmlToken, env: Environment, ns: seq<nat>, n: nat)
      returns (ns': seq<nat>, e: Ending)
    requires Speaks(s, ns, Within(n)) && !IsDone(s)
    ensures Speaks(OnXmlToken(s, t, env), ns', e) && (IsInside(e) <==> !Closes(t))
  {
    TokenBooks(s, t, env);
    ProceedsSnoc(ns, n);
    ns' := if Closes(t) then ns + [n] else ns;
    e := if Closes(t) then Between
         else if IsElement(t) then (if t.content == STARTTLS then Within(n + 1) else Rejected(n, false))
         else if Opens(t) then Rejected(n, true)
         else Within(n);
    assert Closes(t) || IsElement(t) || Opens(t) ==> !IsBlankText(t) && t.kind != TokenType.Comment;
    hide Log, IsBlankText, Books;
  }

  lemma TokenSpeaks(s: Session, i: Input, ns: seq<nat>, e: Ending) returns (ns': seq<nat>, e': Ending)
    requires Speaks(s, ns, e) && !IsDone(s)
    ensures Speaks(OnXmlToken(s, i.token, i.env), ns', e')
    ensures IsInside(e') <==> Opens(i.token) || (!Closes(i.token) && IsInside(e))
  {
    if e == Between {
      ns' := ns;
      e' := BetweenSpeaks(s, i.token, i.env, ns);
    } else {
      ns', e' := WithinSpeaks(s, i.token, i.env, ns, e.proceeds);
    }
  }

  /** Read off the tokens alone: the last stream tag, if any, opened a stream. */
  predicate StreamOpen(w: seq<Input>) {
    w != [] &&
    var t := w[|w| - 1].token;
    (Opens(t) || (!Closes(t) && StreamOpen(w[..|w| - 1])))
  }

  /** The tokens of `w` that the session handled, none being handled once it is done. */
  function Handled(w: seq<Input>): seq<Input> {
    if w == [] || !IsDone(Respond(Start(CREATED), w[..|w| - 1])) then w else Handled(w[..|w| - 1])
  }

  lemma AllHandled(w: seq<Input>)
    requires !IsDone(Respond(Start(CREATED), w))
    ensures Handled(w) == w
  {
    hide Respond;
    if w != [] {
      assert w == w[..|w| - 1] + [w[|w| - 1]];
      RespondSnoc(Start(CREATED), w[..|w| - 1], w[|w| - 1]);
    }
  }

  /**
   * Whatever arrives, under whatever surroundings, the replies are a word of the language, and they
   * are inside a stream exactly when the last stream tag the session handled opened one.
   */
  lemma {:induction false} RepliesInLanguage(w: seq<Input>) returns (ns: seq<nat>, e: Ending)
    ensures Speaks(Respond(Start(CREATED), w), ns, e) && (IsInside(e) <==> StreamOpen(Handled(w)))
    decreases |w|
  {
    hide OnXmlToken, Speaks;
    if w == [] {
      ns, e := [], Between;
      StartSpeaks();
    } else {
      var front, last := w[..|w| - 1], w[|w| - 1];
      ns, e := RepliesInLanguage(front);
      assert w == front + [last];
      RespondSnoc(Start(CREATED), front, last);
      if !IsDone(Respond(Start(CREATED), front)) {
        ns, e := TokenSpeaks(Respond(Start(CREATED), front), last, ns, e);
        AllHandled(front);
      }
    }
  }

  lemma StartSpeaks()
    ensures Speaks(Start(CREATED), [], Between)
  {}

  // ----- every word of the language is some session's log

  const PLAIN := Environment(false, true)
  const SECURED := Environment(true, true)

  function Saying(kind: TokenType, name: string, env: Environment): Input {
    Input(XmlToken(kind, name, map[]), env)
  }

  function Starttls(n: nat): seq<Input> {
    if n == 0 then [] else Starttls(n - 1) + [Saying(TokenType.EmptyTag, STARTTLS, PLAIN)]
  }

  function OpenStream(n: nat): seq<Input> {
    [Saying(TokenType.OpenTag, STREAM, PLAIN)] + Starttls(n)
  }

  function WholeStreams(ns: seq<nat>): seq<Input> {
    if ns == [] then []
    else WholeStreams(ns[..|ns| - 1]) + OpenStream(ns[|ns| - 1]) + [Saying(TokenType.CloseTag, STREAM, PLAIN)]
  }

  function EndingInputs(e: Ending): seq<Input> {
    match e
    case Between => []
    case Within(n) => OpenStream(n)
    case NotAStream => [Saying(TokenType.CloseTag, STREAM, PLAIN)]
    case NotImplemented => [Saying(TokenType.OpenTag, STREAM, SECURED)]
    case Rejected(n, restart) =>
      OpenStream(n) + [if restart then Saying(TokenType.OpenTag, STREAM, PLAIN)
                       else Saying(TokenType.EmptyTag, STREAM, PLAIN)]
  }

  predicate Live(s: Session, h: Handler) {
    !IsDone(s) && s.connected && s.handler == h
  }

  lemma StarttlsIsElement()
    ensures IsElement(XmlToken(TokenType.EmptyTag, STARTTLS, map[]))
    ensures IsElement(XmlToken(TokenType.EmptyTag, STREAM, map[]))
  {}

  lemma {:induction false} OpenStreamReplies(s: Session, n: nat)
    requires Live(s, NoHandler)
    ensures var s' := Respond(s, OpenStream(n)); Live(s', Negotiation) && s'.replies == s.replies + StreamSoFar(n)
  {
    var opening := Saying(TokenType.OpenTag, STREAM, PLAIN);
    if n == 0 {
      assert [] + [opening] == OpenStream(0);
      RespondSnoc(s, [], opening);
      assert StreamSoFar(0) == [StreamHeader, Features];
      Associate(s.replies, [StreamHeader], [Features]);
    } else {
      OpenStreamReplies(s, n - 1);
      var again := Saying(TokenType.EmptyTag, STARTTLS, PLAIN);
      assert OpenStream(n) == OpenStream(n - 1) + [again];
      RespondSnoc(s, OpenStream(n - 1), again);
      StarttlsIsElement();
      assert StreamSoFar(n) == StreamSoFar(n - 1) + [Proceed];
      assert s.replies + StreamSoFar(n) == s.replies + StreamSoFar(n - 1) + [Proceed];
      hide OpenStream, StreamSoFar, Respond, IsElement;
    }
  }

  lemma {:induction false} WholeStreamsReplies(ns: seq<nat>)
    ensures var s := Respond(Start(CREATED), WholeStreams(ns)); Live(s, NoHandler) && s.replies == Streams(ns)
    decreases |ns|
  {
    if ns != [] {
      var front, n := ns[..|ns| - 1], ns[|ns| - 1];
      WholeStreamsReplies(front);
      var s := Respond(Start(CREATED), WholeStreams(front));
      OpenStreamReplies(s, n);
      RespondConcat(Start(CREATED), WholeStreams(front), OpenStream(n));
      RespondSnoc(Start(CREATED), WholeStreams(front) + OpenStream(n), Saying(TokenType.CloseTag, STREAM, PLAIN));
      hide OpenStream, StreamSoFar, Respond;
    }
  }

  lemma OneTokenReplies(s: Session, i: Input)
    ensures Respond(s, [i]) == if IsDone(s) then s else OnXmlToken(s, i.token, i.env)
  {
    assert [] + [i] == [i];
    RespondSnoc(s, [], i);
  }

  lemma RejectedReplies(s: Session, n: nat, restart: bool)
    requires Live(s, NoHandler)
    ensures Respond(s, EndingInputs(Rejected(n, restart))).replies == s.replies + EndingText(Rejected(n, restart))
  {
    OpenStreamReplies(s, n);
    StarttlsIsElement();
    var i := if restart then Saying(TokenType.OpenTag, STREAM, PLAIN) else Saying(TokenType.EmptyTag, STREAM, PLAIN);
    RespondSnoc(s, OpenStream(n), i);
    hide Respond, StreamSoFar, OpenStream, IsElement;
    assert s.replies + (StreamSoFar(n) + [if restart then RestartError else TlsRequiredError]) ==
           s.replies + StreamSoFar(n) + [if restart then RestartError else TlsRequiredError];
  }

  lemma EndingReplies(s: Session, e: Ending)
    requires Live(s, NoHandler)
    ensures Respond(s, EndingInputs(e)).replies == s.replies + EndingText(e)
  {
    match e
    case Between =>
    case Within(n) => OpenStreamReplies(s, n);
    case NotAStream => OneTokenReplies(s, Saying(TokenType.CloseTag, STREAM, PLAIN));
    case NotImplemented =>
      OneTokenReplies(s, Saying(TokenType.OpenTag, STREAM, SECURED));
      Associate(s.replies, [StreamHeader], [InternalError]);
    case Rejected(n, restart) => RejectedReplies(s, n, restart);
  }

  /** Tokens that draw the word made of `ns` and `e`. */
  function WordInputs(ns: seq<nat>, e: Ending): seq<Input> {
    WholeStreams(ns) + EndingInputs(e)
  }

  lemma WordReplies(ns: seq<nat>, e: Ending)
    ensures Respond(Start(CREATED), WordInputs(ns, e)).replies == Log(ns, e)
  {
    hide Respond, EndingInputs, EndingText, Streams, WholeStreams;
    WholeStreamsReplies(ns);
    EndingReplies(Respond(Start(CREATED), WholeStreams(ns)), e);
    RespondConcat(Start(CREATED), WholeStreams(ns), EndingInputs(e));
  }

  ghost predicate IsReplyLog(h: seq<Reply>) {
    exists w: seq<Input> :: Respond(Start(CREATED), w).replies == h
  }

  ghost predicate IsWord(h: seq<Reply>) {
    exists ns: seq<nat>, e: Ending :: h == Log(ns, e)
  }

  /** The reply logs of sessions are exactly the words (header, features, proceed*, end)* with an ending. */
  lemma RepliesExactly(h: seq<Reply>)
    ensures IsReplyLog(h) <==> IsWord(h)
  {
    hide Respond;
    if IsReplyLog(h) {
      var w: seq<Input> :| Respond(Start(CREATED), w).replies == h;
      var ns, e := RepliesInLanguage(w);
      assert h == Log(ns, e);
    }
    if IsWord(h) {
      var ns: seq<nat>, e: Ending :| h == Log(ns, e);
      WordReplies(ns, e);
    }
  }

  predicate IsStreamError(r: Reply) {
    r in {BadFormatError, TlsRequiredError, RestartError, InternalError}
  }

  predicate Calm(h: seq<Reply>) {
    forall r | r in h :: !IsStreamError(r)
  }

  lemma {:induction false} ProceedsCalm(n: nat)
    ensures Calm(StreamSoFar(n))
  {
    if n > 0 {
      ProceedsCalm(n - 1);
      assert StreamSoFar(n) == StreamSoFar(n - 1) + [Proceed];
    }
  }

  lemma {:induction false} StreamsCalm(ns: seq<nat>)
    ensures Calm(Streams(ns))
    decreases |ns|
  {
    if ns != [] {
      StreamsCalm(ns[..|ns| - 1]);
      ProceedsCalm(ns[|ns| - 1]);
    }
  }

  lemma EndingCalm(e: Ending)
    ensures (e.Between? || e.Within?) ==> Calm(EndingText(e))
    ensures !e.Between? && !e.Within? ==> EndingText(e) != [] && Calm(EndingText(e)[..|EndingText(e)| - 1])
  {
    if e.Within? || e.Rejected? { ProceedsCalm(e.proceeds); }
    if e.Rejected? {
      assert EndingText(e)[..|EndingText(e)| - 1] == StreamSoFar(e.proceeds);
    }
    hide StreamSoFar;
  }

  lemma ErrorAtEnd(calm: seq<Reply>, rest: seq<Reply>, k: nat)
    requires Calm(calm) && |rest| <= 1
    requires k < |calm + rest| && IsStreamError((calm + rest)[k])
    ensures rest != [] && k == |calm + rest| - 1
  {}

  /** A stream error is the last thing a session says. */
  lemma ErrorIsLast(w: seq<Input>, k: nat)
    requires k < |Respond(Start(CREATED), w).replies|
    requires IsStreamError(Respond(Start(CREATED), w).replies[k])
    ensures k == |Respond(Start(CREATED), w).replies| - 1 && Respond(Start(CREATED), w).shutDown
  {
    var ns, e := RepliesInLanguage(w);
    StreamsCalm(ns);
    EndingCalm(e);
    var text := EndingText(e);
    var cut := if e.Between? || e.Within? then |text| else |text| - 1;
    hide Respond, Streams, EndingText, IsStreamError;
    assert Streams(ns) + text == Streams(ns) + text[..cut] + text[cut..];
    ErrorAtEnd(Streams(ns) + text[..cut], text[cut..], k);
  }

  // ----- what a proceed answers

  lemma {:induction false} HandlerTracksStream(w: seq<Input>)
    requires !IsDone(Respond(Start(CREATED), w))
    ensures Respond(Start(CREATED), w).handler == if StreamOpen(w) then Negotiation else NoHandler
    decreases |w|
  {
    if w != [] {
      var front, last := w[..|w| - 1], w[|w| - 1];
      assert w == front + [last];
      RespondSnoc(Start(CREATED), front, last);
      HandlerTracksStream(front);
      assert Opens(last.token) || Closes(last.token) ==> !IsBlankText(last.token);
      hide Respond, IsBlankText, IsElement;
    }
  }

  /** What one token adds to the reply log, from the handler alone. */
  function Answer(h: Handler, t: XmlToken, secure: bool): seq<Reply> {
    if t.kind == TokenType.Comment || IsBlankText(t) then []
    else if h == NoHandler then
      if t.kind == TokenType.Declaration then []
      else if !Opens(t) then [BadFormatError]
      else if secure then [StreamHeader, InternalError]
      else [StreamHeader, Features]
    else if Closes(t) then [StreamEnd]
    else if Opens(t) then [RestartError]
    else if !IsElement(t) || h == Unimplemented then []
    else if t.content == STARTTLS then [Proceed]
    else [TlsRequiredError]
  }

  lemma TokenAnswer(s: Session, t: XmlToken, env: Environment)
    requires !IsDone(s) && s.connected
    ensures OnXmlToken(s, t, env).replies == s.replies + Answer(s.handler, t, env.secure)
  {
    hide IsXmlName, ValidAttributes, IsBlankText;
    if s.handler == NoHandler {
      Associate(s.replies, [StreamHeader], [if env.secure then InternalError else Features]);
    } else if t.kind != TokenType.Comment {
      InStreamAnswer(s, t, env);
    }
  }

  lemma InStreamAnswer(s: Session, t: XmlToken, env: Environment)
    requires !IsDone(s) && s.connected && s.handler != NoHandler && t.kind != TokenType.Comment
    ensures InStream(s, t, env).replies == s.replies + Answer(s.handler, t, env.secure)
  {
    hide IsXmlName, ValidAttributes, IsBlankText;
  }

  /** What a live session answers depends only on the token, the security, and the last stream tag before it. */
  lemma {:induction false} AnswersFromHistory(w: seq<Input>, i: Input)
    requires !IsDone(Respond(Start(CREATED), w))
    ensures Respond(Start(CREATED), w + [i]).replies ==
            Respond(Start(CREATED), w).replies +
            Answer(if StreamOpen(w) then Negotiation else NoHandler, i.token, i.env.secure)
  {
    HandlerTracksStream(w);
    RespondSnoc(Start(CREATED), w, i);
    var ns, e := RepliesInLanguage(w);
    TokenAnswer(Respond(Start(CREATED), w), i.token, i.env);
    hide Respond, StreamOpen, OnXmlToken, Log, Answer;
  }

  predicate HasError(h: seq<Reply>) {
    exists r | r in h :: IsStreamError(r)
  }

  /** A token ends the session when it draws an error, cannot be upgraded for, or builds no element. */
  predicate Ends(open: bool, t: XmlToken, env: Environment) {
    || HasError(Answer(if open then Negotiation else NoHandler, t, env.secure))
    || (open && IsElement(t) && t.content == STARTTLS && !env.tlsReady)
    || (open && t.kind == TokenType.EmptyTag && !IsElement(t))
  }

  lemma TokenEndsBefore(s: Session, t: XmlToken, env: Environment)
    requires !IsDone(s) && s.connected && s.handler == NoHandler
    ensures IsDone(OnXmlToken(s, t, env)) <==> HasError(Answer(NoHandler, t, env.secure))
  {
    assert IsStreamError([BadFormatError][0]) && IsStreamError([StreamHeader, InternalError][1]);
    hide IsXmlName, ValidAttributes, IsBlankText;
  }

  lemma TokenEndsWithin(s: Session, t: XmlToken, env: Environment)
    requires !IsDone(s) && s.connected && s.handler == Negotiation
    ensures IsDone(OnXmlToken(s, t, env)) <==> Ends(true, t, env)
  {
    assert IsStreamError([RestartError][0]) && IsStreamError([TlsRequiredError][0]);
    hide IsXmlName, ValidAttributes, IsBlankText;
  }

  /** A live session is done after a token exactly for those reasons. */
  lemma {:induction false} EndsExactly(w: seq<Input>, i: Input)
    requires !IsDone(Respond(Start(CREATED), w))
    ensures IsDone(Respond(Start(CREATED), w + [i])) <==> Ends(StreamOpen(w), i.token, i.env)
  {
    HandlerTracksStream(w);
    RespondSnoc(Start(CREATED), w, i);
    var ns, e := RepliesInLanguage(w);
    var s := Respond(Start(CREATED), w);
    if StreamOpen(w) {
      TokenEndsWithin(s, i.token, i.env);
    } else {
      TokenEndsBefore(s, i.token, i.env);
    }
    hide Respond, StreamOpen, OnXmlToken, Log, Answer, IsElement, HasError;
  }

  lemma ProceedsInAnswer(h: Handler, t: XmlToken, secure: bool)
    ensures Proceed in Answer(h, t, secure) <==> IsElement(t) && t.content == STARTTLS && h == Negotiation
    ensures multiset(Answer(h, t, secure))[Proceed] == Once(Proceed in Answer(h, t, secure))
  {
    assert Opens(t) || Closes(t) || IsBlankText(t) ==> !IsElement(t);
    hide IsXmlName, ValidAttributes, IsBlankText;
  }

  /**
   * A session that is not done answers a token with `proceed` exactly when the token is an empty
   * `starttls` element and the last stream tag before it opened a stream.
   */
  lemma {:induction false} ProceedAnswersStarttls(w: seq<Input>, i: Input)
    requires !IsDone(Respond(Start(CREATED), w))
    ensures var before, after := Respond(Start(CREATED), w).replies, Respond(Start(CREATED), w + [i]).replies;
            && before <= after
            && (Proceed in after[|before|..] <==> IsElement(i.token) && i.token.content == STARTTLS && StreamOpen(w))
  {
    HandlerTracksStream(w);
    RespondSnoc(Start(CREATED), w, i);
    var ns, e := RepliesInLanguage(w);
    var s := Respond(Start(CREATED), w);
    TokenAnswer(s, i.token, i.env);
    ProceedsInAnswer(s.handler, i.token, i.env.secure);
    hide Respond, StreamOpen, OnXmlToken, Log, IsElement, Answer;
    var answer := Answer(s.handler, i.token, i.env.secure);
    assert (s.replies + answer)[|s.replies|..] == answer;
  }

  /** Whether the last reply is a proceed whose upgrade could not be asked for. */
  predicate Refused(s: Session) {
    s.shutDown && s.replies != [] && s.replies[|s.replies| - 1] == Proceed
  }

  lemma OtherTokens(s: Session, t: XmlToken, env: Environment)
    requires Books(s) && !IsDone(s) && !(IsElement(t) && t.content == STARTTLS && s.handler == Negotiation)
    ensures OnXmlToken(s, t, env).upgrades == s.upgrades && !Refused(OnXmlToken(s, t, env))
  {
    hide IsXmlName, ValidAttributes, IsBlankText;
  }

  lemma TokenUpgrades(s: Session, t: XmlToken, env: Environment)
    requires Books(s) && !IsDone(s)
    ensures var s' := OnXmlToken(s, t, env);
            s'.upgrades + Once(Refused(s')) == s.upgrades + Once(Proceed in Answer(s.handler, t, env.secure))
  {
    ProceedsInAnswer(s.handler, t, env.secure);
    if Proceed in Answer(s.handler, t, env.secure) {
      hide Answer, IsXmlName, ValidAttributes;
      assert OnXmlToken(s, t, env) == UpgradeToTls(Send(s, Proceed), env);
    } else {
      OtherTokens(s, t, env);
    }
  }

  /** TLS is asked for once for each proceed, unless the settings were missing, which ends the session. */
  lemma {:induction false} UpgradesAnswerProceeds(w: seq<Input>)
    ensures var s := Respond(Start(CREATED), w); multiset(s.replies)[Proceed] == s.upgrades + Once(Refused(s))
    decreases |w|
  {
    if w != [] {
      var front, last := w[..|w| - 1], w[|w| - 1];
      assert w == front + [last];
      RespondSnoc(Start(CREATED), front, last);
      UpgradesAnswerProceeds(front);
      var ns, e := RepliesInLanguage(front);
      var s, s' := Respond(Start(CREATED), front), Respond(Start(CREATED), w);
      if IsDone(s) {
        hide Respond, Refused;
        assert s' == s;
      } else {
        TokenUpgrades(s, last.token, last.env);
        ProceedsInAnswer(s.handler, last.token, last.env.secure);
        TokenAnswer(s, last.token, last.env);
        assert !Refused(s);
        var answer := Answer(s.handler, last.token, last.env.secure);
        hide Respond, OnXmlToken, Answer, Log, Refused;
        assert multiset(s'.replies)[Proceed] == multiset(s.replies)[Proceed] + multiset(answer)[Proceed];
      }
    }
  }
}
