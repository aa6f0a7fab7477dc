/** An XMPP client session as a step system over tokens, reads and calls from its owner. */
module SessionSteps {
  import opened Characters
  import opened Tokens
  import opened XmlTree

  datatype Handler = NoHandler | Negotiation | Unimplemented

  /** One `send` or `sendRaw`, by what it says. */
  datatype Reply =
    | StreamHeader
    | Features
    | Proceed
    | StreamEnd
    | BadFormatError
    | TlsRequiredError
    | RestartError
    | InternalError

  /** What the session asks of its surroundings while it handles a token. */
  datatype Environment = Environment(secure: bool, tlsReady: bool)

  /** `threw` says that an exception left the session; the counters are calls made and callbacks told. */
  datatype Session = Session(
    handler: Handler,
    stopped: bool,
    shutDown: bool,
    connected: bool,
    notified: bool,
    threw: bool,
    outstandingReads: nat,
    cancels: nat,
    closes: nat,
    completions: nat,
    upgrades: nat,
    replies: seq<Reply>)

  const CREATED := Session(NoHandler, true, false, true, false, false, 0, 0, 0, 0, 0, [])

  const STREAM := "stream:stream"
  const STARTTLS := "starttls"

  function Send(s: Session, r: Reply): Session {
    if !s.shutDown && s.connected then s.(replies := s.replies + [r]) else s
  }

  function Stop(s: Session): Session {
    if s.stopped then s else s.(stopped := true, cancels := s.cancels + if s.connected then 1 else 0)
  }

  function NotifyCompletion(s: Session): Session {
    if s.notified then s else s.(notified := true, completions := s.completions + 1)
  }

  /** Gives up the connection, asking it to close, and reports completion. */
  function Shutdown(s: Session): Session {
    if s.shutDown then s
    else
      var s := Stop(s.(shutDown := true));
      NotifyCompletion(if s.connected then s.(connected := false, closes := s.closes + 1) else s)
  }

  function ScheduleRead(s: Session): Session {
    if s.stopped || s.shutDown || !s.connected then s else s.(outstandingReads := s.outstandingReads + 1)
  }

  function Start(s: Session): Session {
    if s.shutDown then s else ScheduleRead(s.(stopped := false))
  }

  // ----- tokens

  function UpgradeToTls(s: Session, env: Environment): Session {
    if !env.tlsReady then Shutdown(s) else s.(upgrades := s.upgrades + 1)
  }

  function OnStart(s: Session): Session {
    if s.handler == Negotiation then Send(Send(s, StreamHeader), Features)
    else Shutdown(Send(Send(s, StreamHeader), InternalError))
  }

  function OnStanza(s: Session, name: string, env: Environment): Session {
    if s.handler == Unimplemented then s
    else if name != STARTTLS then Shutdown(Send(s, TlsRequiredError))
    else UpgradeToTls(Send(s, Proceed), env)
  }

  predicate IsBlankText(t: XmlToken) {
    t.kind == TokenType.TextContent && AllSpace(t.content)
  }

  predicate Opens(t: XmlToken) {
    t.kind == TokenType.OpenTag && t.content == STREAM
  }

  predicate Closes(t: XmlToken) {
    t.kind == TokenType.CloseTag && t.content == STREAM
  }

  /** Whether the node built for an empty tag accepts the token's name and attributes. */
  predicate IsElement(t: XmlToken) {
    t.kind == TokenType.EmptyTag && IsXmlName(t.content) && ValidAttributes(t.attributes)
  }

  function BeforeStream(s: Session, t: XmlToken, env: Environment): Session {
    if t.kind == TokenType.Declaration || IsBlankText(t) then s
    else if !Opens(t) then Shutdown(Send(s, BadFormatError))
    else OnStart(s.(handler := if env.secure then Unimplemented else Negotiation))
  }

  function InStream(s: Session, t: XmlToken, env: Environment): Session {
    if IsBlankText(t) then s
    else if Closes(t) then Send(s, StreamEnd).(handler := NoHandler)
    else if t.kind == TokenType.EmptyTag then
      if IsElement(t) then OnStanza(s, t.content, env) else s.(threw := true)
    else if Opens(t) then Shutdown(Send(s, RestartError))
    else s
  }

  function OnXmlToken(s: Session, t: XmlToken, env: Environment): Session {
    if t.kind == TokenType.Comment then s
    else if s.handler == NoHandler then BeforeStream(s, t, env)
    else InStream(s, t, env)
  }

  /** No further token is handled: the session has shut down, or an exception has left it. */
  predicate IsDone(s: Session) {
    s.shutDown || s.threw
  }

  /** The tokens of one read, up to the one that ends the session. */
  function Hear(s: Session, ts: seq<XmlToken>, env: Environment): Session
    decreases |ts|
  {
    if ts == [] || IsDone(s) then s else Hear(OnXmlToken(s, ts[0], env), ts[1..], env)
  }

  // ----- reads

  /** A read has ended with the tokens its bytes complete, or with an error. */
  datatype ReadEnd = Tokens(ts: seq<XmlToken>, env: Environment) | ReadError

  function OnRead(s: Session, r: ReadEnd): Session
    requires s.outstandingReads > 0
  {
    var s := s.(outstandingReads := s.outstandingReads - 1);
    if r.ReadError? || s.stopped || s.shutDown || !s.connected then
      if !s.shutDown && s.connected then Shutdown(s) else s
    else
      var s := Hear(s, r.ts, r.env);
      if s.threw then s else ScheduleRead(s)
  }
}
