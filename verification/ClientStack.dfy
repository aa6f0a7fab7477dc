/**
 * One client from end to end: its connection, the tokenizer fed by the connection's reads, and the
 * session that answers the tokens with calls into the connection.
 */
module ClientStack {
  import opened Options
  import opened Sequences
  import opened Tokens
  import opened Machine
  import opened SessionSteps
  import opened SessionStream
  import opened Replies
  import opened Connection
  import opened ConnectionProperties
  import opened ConnectionRuns
  import opened ConnectionOrder

  /** `delivered` counts the invoked callbacks of `net` that the session has been told of. */
  datatype Stack = Stack(session: Session, reader: Config, net: Net, delivered: nat)

  const READER: nat := 0
  const CLOSER: nat := 0
  const CLOSE: Connection.Event := CallClose(Some(CLOSER))

  /** A started session has asked for its first read. */
  const ACCEPTED_STACK := Stack(SessionSteps.Start(CREATED), START, Connection.Read(ACCEPTED, READER), 0)

  // ----- calls into the connection

  predicate AreCalls(es: seq<Connection.Event>) {
    forall e | e in es :: !e.Occur?
  }

  lemma {:induction false} CallsRun(m: Net, es: seq<Connection.Event>)
    requires AreCalls(es)
    ensures IsOrderlyRun(m, es) && IsStrandRun(m, es)
    decreases |es|
  {
    hide Connection.Apply;
    if es != [] {
      assert es[0] in es;
      assert AreCalls(es[1..]) by { assert forall e | e in es[1..] :: e in es; }
      CallsRun(Connection.Apply(m, es[0]), es[1..]);
    }
  }

  function Ask(m: Net, es: seq<Connection.Event>): Net
    requires AreCalls(es)
  {
    CallsRun(m, es);
    After(m, es)
  }

  /** From one state of a session to a later one, reads aside. */
  predicate Grows(s: Session, s': Session) {
    && s.replies <= s'.replies
    && s.upgrades <= s'.upgrades
    && s.cancels <= s'.cancels
    && s.closes <= s'.closes
    && s'.outstandingReads == s.outstandingReads
  }

  ghost function Payloads(h: seq<Reply>): seq<string> {
    if h == [] then [] else [ReplyText(h[0])] + Payloads(h[1..])
  }

  ghost function WriteCalls(h: seq<Reply>): seq<Connection.Event> {
    if h == [] then [] else [CallWrite(ReplyText(h[0]))] + WriteCalls(h[1..])
  }

  function Repeat(e: Connection.Event, n: nat): seq<Connection.Event> {
    if n == 0 then [] else [e] + Repeat(e, n - 1)
  }

  function Said(s: Session, s': Session): seq<Reply>
    requires Grows(s, s')
  {
    s'.replies[|s.replies|..]
  }

  /** What the session asks of its connection: it speaks, then upgrades, or cancels its read and closes. */
  ghost function Requests(s: Session, s': Session): seq<Connection.Event>
    requires Grows(s, s')
  {
    WriteCalls(Said(s, s')) + Repeat(CallUpgrade, s'.upgrades - s.upgrades) +
    Repeat(CallCancelRead, s'.cancels - s.cancels) + Repeat(CLOSE, s'.closes - s.closes)
  }

  lemma SendGrows(s: Session, r: Reply)
    ensures Grows(s, Send(s, r)) && Grows(s, SessionSteps.Shutdown(Send(s, r)))
  {}

  lemma StartGrows(s: Session)
    ensures Grows(s, OnStart(s))
  {
    SendGrows(s, StreamHeader);
    SendGrows(Send(s, StreamHeader), Features);
    SendGrows(Send(s, StreamHeader), InternalError);
    hide Send, SessionSteps.Shutdown;
  }

  lemma StanzaGrows(s: Session, name: string, env: Environment)
    ensures Grows(s, OnStanza(s, name, env))
  {
    SendGrows(s, TlsRequiredError);
    SendGrows(s, Reply.Proceed);
    hide Send, SessionSteps.Shutdown;
  }

  lemma TokenGrows(s: Session, t: XmlToken, env: Environment)
    ensures Grows(s, OnXmlToken(s, t, env))
  {
    StartGrows(s.(handler := if env.secure then Unimplemented else Negotiation));
    StanzaGrows(s, t.content, env);
    SendGrows(s, BadFormatError);
    SendGrows(s, StreamEnd);
    SendGrows(s, RestartError);
    hide IsElement, IsBlankText, Opens, Closes, Send, SessionSteps.Shutdown, OnStart, OnStanza;
  }

  /** The calls made while the tokens of a read are handled, in order. */
  ghost function HearRequests(s: Session, ts: seq<XmlToken>, env: Environment): seq<Connection.Event>
    decreases |ts|
  {
    if ts == [] || IsDone(s) then []
    else
      var s' := OnXmlToken(s, ts[0], env);
      TokenGrows(s, ts[0], env);
      Requests(s, s') + HearRequests(s', ts[1..], env)
  }

  /** The calls `es` are those that take a session from `s` to `s'`. */
  ghost predicate Carries(es: seq<Connection.Event>, s: Session, s': Session) {
    && Grows(s, s')
    && AreCalls(es)
    && Writes(es) == Payloads(Said(s, s'))
    && (forall k :: Requested(es, k) == if k == Closer(CLOSER) then s'.closes - s.closes else 0)
    && (s'.closes > s.closes ==> CLOSE in es)
  }

  lemma {:induction false} PayloadsConcat(a: seq<Reply>, b: seq<Reply>)
    ensures Payloads(a + b) == Payloads(a) + Payloads(b)
  {
    if a == [] {
      assert a + b == b;
    } else {
      assert (a + b)[1..] == a[1..] + b;
      PayloadsConcat(a[1..], b);
    }
  }

  lemma {:induction false} WritesConcat(a: seq<Connection.Event>, b: seq<Connection.Event>)
    ensures Writes(a + b) == Writes(a) + Writes(b)
  {
    if a == [] {
      assert a + b == b;
    } else {
      assert (a + b)[1..] == a[1..] + b;
      WritesConcat(a[1..], b);
    }
  }

  lemma {:induction false} RequestedConcat(a: seq<Connection.Event>, b: seq<Connection.Event>, k: Client)
    ensures Requested(a + b, k) == Requested(a, k) + Requested(b, k)
  {
    if a == [] {
      assert a + b == b;
    } else {
      assert (a + b)[1..] == a[1..] + b;
      RequestedConcat(a[1..], b, k);
    }
  }

  lemma {:induction false} WriteCallsCarry(h: seq<Reply>, k: Client)
    ensures AreCalls(WriteCalls(h)) && Writes(WriteCalls(h)) == Payloads(h) && Requested(WriteCalls(h), k) == 0
  {
    if h != [] {
      WriteCallsCarry(h[1..], k);
      assert WriteCalls(h)[1..] == WriteCalls(h[1..]);
    }
  }

  lemma {:induction false} RepeatCarries(e: Connection.Event, n: nat, k: Client)
    requires !e.Occur? && !e.CallWrite?
    ensures AreCalls(Repeat(e, n)) && Writes(Repeat(e, n)) == []
    ensures Requested(Repeat(e, n), k) == if OfEvent(e) == Some(k) then n else 0
    ensures n > 0 ==> e in Repeat(e, n)
  {
    if n > 0 {
      RepeatCarries(e, n - 1, k);
      assert Repeat(e, n)[1..] == Repeat(e, n - 1);
    }
  }

  lemma RequestsParts(s: Session, s': Session)
    requires Grows(s, s')
    ensures Requests(s, s') ==
            WriteCalls(Said(s, s')) + Repeat(CallUpgrade, s'.upgrades - s.upgrades) +
            Repeat(CallCancelRead, s'.cancels - s.cancels) + Repeat(CLOSE, s'.closes - s.closes)
    ensures s.upgrades <= s'.upgrades && s.cancels <= s'.cancels && s.closes <= s'.closes
  {}

  lemma ClosesOnly(k: Client)
    ensures OfEvent(CallUpgrade) != Some(k) && OfEvent(CallCancelRead) != Some(k)
    ensures OfEvent(CLOSE) == Some(k) <==> k == Closer(CLOSER)
    ensures !CLOSE.Occur? && !CLOSE.CallWrite?
  {}

  /** To say `proceed` and upgrade, and to say something and leave: which calls these are, in which order. */
  lemma RequestsInOrder(s: Session, said: seq<Reply>)
    ensures var s' := s.(replies := s.replies + [Reply.Proceed], upgrades := s.upgrades + 1);
            Grows(s, s') && Requests(s, s') == [CallWrite(ReplyText(Reply.Proceed))] + [CallUpgrade]
    ensures var s' := s.(replies := s.replies + said, cancels := s.cancels + 1, closes := s.closes + 1);
            Grows(s, s') && Requests(s, s') == WriteCalls(said) + [CallCancelRead] + [CallClose(Some(0))]
    ensures said != [] ==> WriteCalls(said) == [CallWrite(ReplyText(said[0]))] + WriteCalls(said[1..])
  {
    assert [Reply.Proceed][1..] == [];
    assert (s.replies + [Reply.Proceed])[|s.replies|..] == [Reply.Proceed];
    assert (s.replies + said)[|s.replies|..] == said;
    hide ReplyText;
    assert Repeat(CallUpgrade, 1) == [CallUpgrade] + [] && Repeat(CallCancelRead, 1) == [CallCancelRead] + [];
    assert Repeat(CLOSE, 1) == [CLOSE] + [];
    Unit([CallUpgrade]);
    Unit([CallCancelRead]);
    Unit([CLOSE]);
    Unit(WriteCalls(said));
    Unit(WriteCalls([Reply.Proceed]));
    Unit(WriteCalls([Reply.Proceed]) + [CallUpgrade]);
  }

  lemma FourConcat(a: seq<Connection.Event>, b: seq<Connection.Event>, c: seq<Connection.Event>,
                   d: seq<Connection.Event>, k: Client)
    requires AreCalls(a) && AreCalls(b) && AreCalls(c) && AreCalls(d)
    requires Writes(b) == Writes(c) == Writes(d) == []
    ensures AreCalls(a + b + c + d) && Writes(a + b + c + d) == Writes(a)
    ensures Requested(a + b + c + d, k) == Requested(a, k) + Requested(b, k) + Requested(c, k) + Requested(d, k)
  {
    hide Requested, Writes;
    WritesConcat(a, b);
    WritesConcat(a + b, c);
    WritesConcat(a + b + c, d);
    RequestedConcat(a, b, k);
    RequestedConcat(a + b, c, k);
    RequestedConcat(a + b + c, d, k);
  }

  lemma RequestsRequested(s: Session, s': Session, k: Client)
    requires Grows(s, s')
    ensures AreCalls(Requests(s, s')) && Writes(Requests(s, s')) == Payloads(Said(s, s'))
    ensures Requested(Requests(s, s'), k) == if k == Closer(CLOSER) then s'.closes - s.closes else 0
  {
    hide *;
    var h, up, cancels, closes := Said(s, s'), s'.upgrades - s.upgrades, s'.cancels - s.cancels, s'.closes - s.closes;
    RequestsParts(s, s');
    ClosesOnly(k);
    WriteCallsCarry(h, k);
    RepeatCarries(CallUpgrade, up, k);
    RepeatCarries(CallCancelRead, cancels, k);
    RepeatCarries(CLOSE, closes, k);
    FourConcat(WriteCalls(h), Repeat(CallUpgrade, up), Repeat(CallCancelRead, cancels), Repeat(CLOSE, closes), k);
  }

  lemma RequestsClose(s: Session, s': Session)
    requires Grows(s, s') && s'.closes > s.closes
    ensures CLOSE in Requests(s, s')
  {
    RepeatCarries(CLOSE, s'.closes - s.closes, Closer(CLOSER));
    hide WriteCalls, Repeat, Requested, Writes;
  }

  lemma RequestsCarry(s: Session, s': Session)
    requires Grows(s, s')
    ensures Carries(Requests(s, s'), s, s')
  {
    forall k
      ensures Requested(Requests(s, s'), k) == if k == Closer(CLOSER) then s'.closes - s.closes else 0
    {
      RequestsRequested(s, s', k);
    }
    RequestsRequested(s, s', Closer(CLOSER));
    if s'.closes > s.closes { RequestsClose(s, s'); }
    hide Requests, Requested, Writes, Payloads;
  }

  lemma CarriesConcat(a: seq<Connection.Event>, b: seq<Connection.Event>, s0: Session, s1: Session, s2: Session)
    requires Carries(a, s0, s1) && Carries(b, s1, s2)
    ensures Carries(a + b, s0, s2)
  {
    hide Requested, Writes, Payloads;
    assert Said(s0, s2) == Said(s0, s1) + Said(s1, s2);
    PayloadsConcat(Said(s0, s1), Said(s1, s2));
    WritesConcat(a, b);
    forall k
      ensures Requested(a + b, k) == if k == Closer(CLOSER) then s2.closes - s0.closes else 0
    {
      RequestedConcat(a, b, k);
    }
  }

  lemma NothingCarries(s: Session)
    ensures Carries([], s, s)
  {}

  lemma {:induction false} HearCarries(s: Session, ts: seq<XmlToken>, env: Environment)
    ensures Carries(HearRequests(s, ts, env), s, Hear(s, ts, env))
    decreases |ts|
  {
    hide OnXmlToken, Carries, Requests;
    if ts == [] || IsDone(s) {
      NothingCarries(s);
    } else {
      var s' := OnXmlToken(s, ts[0], env);
      TokenGrows(s, ts[0], env);
      RequestsCarry(s, s');
      HearCarries(s', ts[1..], env);
      CarriesConcat(Requests(s, s'), HearRequests(s', ts[1..], env), s, s', Hear(s', ts[1..], env));
    }
  }

  // ----- steps

  /** A handler of the connection runs, the session is told of a callback, or its owner intervenes. */
  datatype Event = Handler(index: nat, completion: Completion) | Delivery(tlsReady: bool) | OwnerStops | OwnerShutsDown

  predicate Possible(j: Stack, e: Event) {
    match e
    case Handler(i, _) => i < |j.net.pending|
    case Delivery(_) =>
      j.delivered < |j.net.calls| && (j.net.calls[j.delivered].ReadCall? ==> j.session.outstandingReads > 0)
    case _ => true
  }

  predicate Overlaps(j: Stack, e: Event) {
    e.Handler? && Connection.Overlaps(j.net, Occur(e.index, e.completion))
  }

  lemma FlagsGrow(s: Session)
    ensures Grows(s, Stop(s)) && Grows(s, SessionSteps.Shutdown(s))
  {}

  /** The session acts on its own, without reading. */
  ghost function Act(j: Stack, s: Session): Stack
    requires Grows(j.session, s)
  {
    RequestsCarry(j.session, s);
    j.(session := s, net := Ask(j.net, Requests(j.session, s)))
  }

  /** Whether the read callback goes on to the tokenizer. */
  predicate Listens(s: Session, r: ReadResult) {
    r.Data? && !s.stopped && !s.shutDown && s.connected
  }

  predicate Rereads(s: Session) {
    !s.threw && !s.stopped && !s.shutDown && s.connected
  }

  /** The read callback: its tokens are handled one by one, and then the next read is asked for. */
  ghost function FinishRead(max: Limit, j: Stack, r: ReadResult, tlsReady: bool): Stack
    requires j.session.outstandingReads > 0
  {
    var s := j.session.(outstandingReads := j.session.outstandingReads - 1);
    if !Listens(s, r) then
      var s' := if !s.shutDown && s.connected then SessionSteps.Shutdown(s) else s;
      Act(j.(session := s), s')
    else
      var env := Environment(j.net.state == Secure, tlsReady);
      var reader := Run(max, j.reader, r.bytes);
      var ts := NewTokens(j.reader, reader);
      var s' := Hear(s, ts, env);
      HearCarries(s, ts, env);
      var net := Ask(j.net, HearRequests(s, ts, env));
      if Rereads(s') then
        Stack(s'.(outstandingReads := s'.outstandingReads + 1), reader, Connection.Read(net, READER), j.delivered)
      else Stack(s', reader, net, j.delivered)
  }

  ghost function Apply(max: Limit, j: Stack, e: Event): Stack
    requires Possible(j, e)
  {
    match e
    case Handler(i, c) => j.(net := Connection.Apply(j.net, Occur(i, c)))
    case Delivery(tlsReady) =>
      var told := j.(delivered := j.delivered + 1);
      (match j.net.calls[j.delivered]
       case CloseCall(_) => told
       case ReadCall(_, r) => FinishRead(max, told, r, tlsReady))
    case OwnerStops => FlagsGrow(j.session); Act(j, Stop(j.session))
    case OwnerShutsDown => FlagsGrow(j.session); Act(j, SessionSteps.Shutdown(j.session))
  }

  /** The read callback is the session's `OnRead`. */
  lemma FinishReadIsOnRead(max: Limit, j: Stack, r: ReadResult, tlsReady: bool)
    requires j.session.outstandingReads > 0
    ensures FinishRead(max, j, r, tlsReady).session ==
            OnRead(j.session,
                   if r.Error? then ReadError
                   else ReadEnd.Tokens(NewTokens(j.reader, Run(max, j.reader, r.bytes)),
                                       Environment(j.net.state == Secure, tlsReady)))
  {
    hide Hear, Run, Requests, Carries, HearRequests, NewTokens;
  }
}
