/** What each token draws from a live session, by the token's own kind and text. */
module SessionTokens {
  import opened Characters
  import opened Tokens
  import opened TokenizerBytes
  import opened XmlTree
  import opened SessionSteps
  import opened SessionLanguage
  import Lifecycle = SessionLifecycle

  /** Neither stopped nor shut down, and left by no exception. */
  predicate IsLive(s: Session) {
    Lifecycle.Books(s) && !IsDone(s) && !s.stopped
  }

  /** `s` after it has said `said` and gone on, its handler being `h`. */
  function Says(s: Session, said: seq<Reply>, h: Handler): Session {
    s.(replies := s.replies + said, handler := h)
  }

  /** `s` after it has said `said` and shut down: it has cancelled its read, closed and reported completion. */
  function Leaves(s: Session, said: seq<Reply>, h: Handler): Session {
    s.(replies := s.replies + said, handler := h, stopped := true, shutDown := true, connected := false,
       notified := true, cancels := 1, closes := 1, completions := 1)
  }

  lemma WhiteIsBlank(t: XmlToken)
    ensures IsBlankText(t) <==> t.kind == TokenType.TextContent && AreWhite(t.content)
  {
    Classes(t.content);
    hide AllSpace, AreWhite;
  }

  lemma OneAfterAnother(a: seq<Reply>, r: Reply, q: Reply)
    ensures a + [r] + [q] == a + [r, q]
    ensures a + [] == a
  {}

  /**
   * Outside a stream: comments, declarations and white space pass unanswered; `stream:stream` opens a
   * stream, or ends a session that is secure already; anything else is a bad format and the end.
   */
  lemma OutsideStream(s: Session, t: XmlToken, env: Environment)
    requires IsLive(s) && s.handler == NoHandler
    ensures OnXmlToken(s, t, env) ==
            match t.kind
            case Comment => s
            case Declaration => s
            case TextContent => if AreWhite(t.content) then s else Leaves(s, [BadFormatError], NoHandler)
            case OpenTag =>
              if t.content != "stream:stream" then Leaves(s, [BadFormatError], NoHandler)
              else if env.secure then Leaves(s, [StreamHeader, InternalError], Unimplemented)
              else Says(s, [StreamHeader, Features], Negotiation)
            case CloseTag => Leaves(s, [BadFormatError], NoHandler)
            case EmptyTag => Leaves(s, [BadFormatError], NoHandler)
  {
    WhiteIsBlank(t);
    hide IsBlankText, AreWhite;
    OneAfterAnother(s.replies, StreamHeader, if env.secure then InternalError else Features);
  }

  /**
   * Inside a stream: `/stream:stream` closes it and a second `stream:stream` ends the session; an empty
   * `starttls` is told to proceed and TLS is asked for, or the session ends when it cannot be set up; any
   * other empty element is refused and ends the session; an empty tag that makes no element throws; and
   * nothing else is answered.
   */
  lemma InsideStream(s: Session, t: XmlToken, env: Environment)
    requires IsLive(s) && s.handler == Negotiation
    ensures OnXmlToken(s, t, env) ==
            match t.kind
            case Comment => s
            case Declaration => s
            case TextContent => s
            case OpenTag => if t.content == "stream:stream" then Leaves(s, [RestartError], Negotiation) else s
            case CloseTag => if t.content == "stream:stream" then Says(s, [StreamEnd], NoHandler) else s
            case EmptyTag =>
              if !IsXmlName(t.content) || !ValidAttributes(t.attributes) then s.(threw := true)
              else if t.content != "starttls" then Leaves(s, [TlsRequiredError], Negotiation)
              else if env.tlsReady then Says(s, [Proceed], Negotiation).(upgrades := s.upgrades + 1)
              else Leaves(s, [Proceed], Negotiation)
  {
    WhiteIsBlank(t);
    hide IsBlankText, AreWhite, IsXmlName, ValidAttributes;
  }

  /** A live session is outside a stream or inside one, as its client's last stream tag says. */
  lemma LiveStates(w: seq<Input>)
    requires !IsDone(Respond(Start(CREATED), w))
    ensures var s := Respond(Start(CREATED), w);
            IsLive(s) && s.handler == if StreamOpen(w) then Negotiation else NoHandler
  {
    HandlerTracksStream(w);
    StaysUnstopped(w);
    var ns, e := RepliesInLanguage(w);
    hide Respond, Log, StreamOpen;
  }

  lemma {:induction false} StaysUnstopped(w: seq<Input>)
    ensures var s := Respond(Start(CREATED), w); Lifecycle.Books(s) && (s.stopped ==> s.shutDown)
    decreases |w|
  {
    if w != [] {
      var front, last := w[..|w| - 1], w[|w| - 1];
      assert w == front + [last];
      StaysUnstopped(front);
      RespondSnoc(Start(CREATED), front, last);
      if !IsDone(Respond(Start(CREATED), front)) {
        Lifecycle.TokenBooks(Respond(Start(CREATED), front), last.token, last.env);
      }
      hide Respond, OnXmlToken, Lifecycle.Books;
    }
  }

  // ----- reads and starting

  /** A read that ends in an error, or after a stop, ends the session, unanswered. */
  lemma EndedRead(s: Session, r: ReadEnd)
    requires s.outstandingReads > 0 && Lifecycle.Books(s) && (r.ReadError? || s.stopped)
    ensures var s' := OnRead(s, r);
            && s'.shutDown && s'.replies == s.replies && s'.upgrades == s.upgrades
            && s'.outstandingReads == s.outstandingReads - 1
  {
    hide Hear;
  }

  /** The first stop cancels the read; later ones, and those after shutdown, do nothing. */
  lemma Stopping(s: Session)
    requires Lifecycle.Books(s)
    ensures Stop(s) == if s.stopped then s else s.(stopped := true, cancels := 1)
  {}

  /** Starting a session that has shut down does nothing; starting any other asks for a read. */
  lemma Starting(s: Session)
    requires Lifecycle.Books(s)
    ensures Start(s) == if s.shutDown then s else s.(stopped := false, outstandingReads := s.outstandingReads + 1)
  {}
}
