/** What reaches the client: the bytes a session's connection gives to its transport. */
module StackReplies {
  import opened Sequences
  import opened Tokens
  import opened Machine
  import opened SessionSteps
  import opened SessionLanguage
  import opened SessionStream
  import opened Replies
  import opened Connection
  import opened ConnectionProperties
  import opened ConnectionOrder
  import opened ClientStack
  import opened StackRuns

  /** The connection's posted steps run first in, first out. */
  ghost predicate IsStranded(max: Limit, j: Stack, run: seq<ClientStack.Event>)
    requires IsOrderly(max, j, run)
    decreases |run|
  {
    run == [] ||
    ((run[0].Handler? ==> InTurn(j.net, Occur(run[0].index, run[0].completion))) &&
     IsStranded(max, ClientStack.Apply(max, j, run[0]), run[1..]))
  }

  // ----- order

  /** The replies are sent in their order, and while the connection is open the rest is queued. */
  ghost predicate InOrder(j: Stack) {
    Ordered(j.net, Payloads(j.session.replies))
  }

  lemma SaidPayloads(s: Session, s': Session)
    requires Grows(s, s')
    ensures Payloads(s'.replies) == Payloads(s.replies) + Payloads(Said(s, s'))
  {
    assert s'.replies == s.replies + Said(s, s');
    PayloadsConcat(s.replies, Said(s, s'));
  }

  lemma AskOrdered(m: Net, es: seq<Connection.Event>, s: Session, s': Session)
    requires ConnectionProperties.Invariant(m) && Ordered(m, Payloads(s.replies)) && Carries(es, s, s')
    ensures Ordered(Ask(m, es), Payloads(s'.replies))
  {
    SaidPayloads(s, s');
    CallsRun(m, es);
    RunOrdered(m, es, Payloads(s.replies));
    hide Payloads, Ordered, Writes, Requested, ConnectionProperties.Invariant;
  }

  lemma AskInOrder(j: Stack, es: seq<Connection.Event>, s: Session, reader: Config)
    requires Agree(j) && InOrder(j) && Carries(es, j.session, s)
    ensures InOrder(Stack(s, reader, Ask(j.net, es), j.delivered))
  {
    AskOrdered(j.net, es, j.session, s);
    hide Payloads, Ordered, Carries, ConnectionProperties.Invariant;
  }

  lemma ActInOrder(j: Stack, s: Session)
    requires Agree(j) && InOrder(j) && Grows(j.session, s)
    ensures InOrder(Act(j, s))
  {
    RequestsCarry(j.session, s);
    AskInOrder(j, Requests(j.session, s), s, j.reader);
    hide InOrder, Agree, Requests, Carries;
  }

  lemma ReadInOrder(j: Stack)
    requires ConnectionProperties.Invariant(j.net) && InOrder(j)
    ensures InOrder(j.(session := j.session.(outstandingReads := j.session.outstandingReads + 1),
                       net := Connection.Read(j.net, READER)))
  {
    ApplyOrdered(j.net, CallRead(READER), Payloads(j.session.replies));
    assert Payloads(j.session.replies) + [] == Payloads(j.session.replies);
    hide Ordered, Payloads, ConnectionProperties.Invariant;
  }

  lemma FinishReadInOrder(max: Limit, j: Stack, r: ReadResult, tlsReady: bool)
    requires j.session.outstandingReads > 0 && InOrder(j)
    requires Agree(j.(session := j.session.(outstandingReads := j.session.outstandingReads - 1)))
    ensures InOrder(FinishRead(max, j, r, tlsReady))
  {
    var s := j.session.(outstandingReads := j.session.outstandingReads - 1);
    var j0 := j.(session := s);
    if !Listens(s, r) {
      FlagsGrow(s);
      hide Agree, Run;
      ActInOrder(j0, if !s.shutDown && s.connected then SessionSteps.Shutdown(s) else s);
    } else {
      var env := Environment(j.net.state == Secure, tlsReady);
      var reader := Run(max, j.reader, r.bytes);
      var ts := NewTokens(j.reader, reader);
      hide Run, NewTokens, Hear, HearRequests, Ask, Connection.Read, Ordered, Payloads;
      HearCarries(s, ts, env);
      AskInOrder(j0, HearRequests(s, ts, env), Hear(s, ts, env), reader);
      AskKeeps(j.net, HearRequests(s, ts, env));
      ReadInOrder(Stack(Hear(s, ts, env), reader, Ask(j.net, HearRequests(s, ts, env)), j.delivered));
    }
  }

  lemma ApplyInOrder(max: Limit, j: Stack, e: ClientStack.Event)
    requires Agree(j) && InOrder(j) && ClientStack.Possible(j, e) && !ClientStack.Overlaps(j, e)
    requires e.Handler? ==> InTurn(j.net, Occur(e.index, e.completion))
    ensures InOrder(ClientStack.Apply(max, j, e))
  {
    match e
    case Handler(i, c) =>
      ApplyOrdered(j.net, Occur(i, c), Payloads(j.session.replies));
      assert Payloads(j.session.replies) + [] == Payloads(j.session.replies);
      hide Ordered, Payloads, Agree, Connection.Apply;
    case Delivery(tlsReady) =>
      ToldAgrees(j);
      hide Agree, FinishRead, Ordered, Payloads;
      var told := j.(delivered := j.delivered + 1);
      if j.net.calls[j.delivered].ReadCall? {
        FinishReadInOrder(max, told, j.net.calls[j.delivered].result, tlsReady);
      }
    case OwnerStops =>
      FlagsGrow(j.session);
      hide Agree, InOrder;
      ActInOrder(j, Stop(j.session));
    case OwnerShutsDown =>
      FlagsGrow(j.session);
      hide Agree, InOrder;
      ActInOrder(j, SessionSteps.Shutdown(j.session));
  }

  lemma {:induction false} LaterInOrder(max: Limit, j: Stack, run: seq<ClientStack.Event>)
    requires Agree(j) && InOrder(j) && IsOrderly(max, j, run) && IsStranded(max, j, run)
    ensures InOrder(Later(max, j, run))
    decreases |run|
  {
    hide ClientStack.Apply, Agree, InOrder, InTurn, ClientStack.Possible, ClientStack.Overlaps;
    if run != [] {
      ApplyAgrees(max, j, run[0]);
      ApplyInOrder(max, j, run[0]);
      LaterInOrder(max, ClientStack.Apply(max, j, run[0]), run[1..]);
    }
  }

  lemma AcceptedInOrder()
    ensures InOrder(ACCEPTED_STACK)
  {
    assert Queue([ReadStep(READER)]) == [] by { QueueOfOthers([ReadStep(READER)]); }
  }

  /** The replies are given to the transport in order, each once; while it is open the rest is queued. */
  lemma RepliesSentInOrder(max: Limit, run: seq<ClientStack.Event>)
    requires IsOrderly(max, ACCEPTED_STACK, run) && IsStranded(max, ACCEPTED_STACK, run)
    ensures var j := Later(max, ACCEPTED_STACK, run);
            && j.net.sent <= Payloads(j.session.replies)
            && (IsOpen(j.net.state) ==> j.net.sent + Queue(j.net.pending) == Payloads(j.session.replies))
  {
    AcceptedAgrees();
    AcceptedInOrder();
    LaterInOrder(max, ACCEPTED_STACK, run);
    hide Later, Payloads;
  }

  // ----- language

  ghost predicate IsSpeaking(s: Session) {
    exists ns: seq<nat>, e: Ending :: Speaks(s, ns, e)
  }

  lemma {:induction false} HearSpeaks(s: Session, ts: seq<XmlToken>, env: Environment)
    requires IsSpeaking(s)
    ensures IsSpeaking(Hear(s, ts, env))
    decreases |ts|
  {
    hide OnXmlToken, Speaks;
    if ts != [] && !IsDone(s) {
      var ns: seq<nat>, e: Ending :| Speaks(s, ns, e);
      var ns', e' := TokenSpeaks(s, Input(ts[0], env), ns, e);
      HearSpeaks(OnXmlToken(s, ts[0], env), ts[1..], env);
    }
  }

  lemma FlagsSpeak(s: Session, outstanding: nat)
    requires IsSpeaking(s)
    ensures IsSpeaking(Stop(s)) && IsSpeaking(SessionSteps.Shutdown(s))
    ensures IsSpeaking(s.(outstandingReads := outstanding))
  {
    var ns: seq<nat>, e: Ending :| Speaks(s, ns, e);
    hide Log;
    assert Speaks(Stop(s), ns, e) && Speaks(SessionSteps.Shutdown(s), ns, e);
    assert Speaks(s.(outstandingReads := outstanding), ns, e);
  }

  lemma OnReadSpeaks(s: Session, r: ReadEnd)
    requires s.outstandingReads > 0 && IsSpeaking(s)
    ensures IsSpeaking(OnRead(s, r))
  {
    hide Hear, IsSpeaking, SessionSteps.Shutdown;
    var s0 := s.(outstandingReads := s.outstandingReads - 1);
    FlagsSpeak(s, s.outstandingReads - 1);
    FlagsSpeak(s0, 0);
    if r.Tokens? {
      HearSpeaks(s0, r.ts, r.env);
      FlagsSpeak(Hear(s0, r.ts, r.env), Hear(s0, r.ts, r.env).outstandingReads + 1);
    }
  }

  lemma FinishReadSpeaks(max: Limit, j: Stack, r: ReadResult, tlsReady: bool)
    requires j.session.outstandingReads > 0 && IsSpeaking(j.session)
    ensures IsSpeaking(FinishRead(max, j, r, tlsReady).session)
  {
    hide *;
    FinishReadIsOnRead(max, j, r, tlsReady);
    OnReadSpeaks(j.session,
                 if r.Error? then ReadError
                 else ReadEnd.Tokens(NewTokens(j.reader, Run(max, j.reader, r.bytes)),
                                     Environment(j.net.state == Secure, tlsReady)));
  }

  lemma ApplySpeaks(max: Limit, j: Stack, e: ClientStack.Event)
    requires ClientStack.Possible(j, e) && IsSpeaking(j.session)
    ensures IsSpeaking(ClientStack.Apply(max, j, e).session)
  {
    hide FinishRead, Speaks, IsSpeaking;
    match e
    case Delivery(tlsReady) =>
      var c := j.net.calls[j.delivered];
      if c.ReadCall? { FinishReadSpeaks(max, j.(delivered := j.delivered + 1), c.result, tlsReady); }
    case _ => FlagsSpeak(j.session, 0);
  }

  lemma {:induction false} LaterSpeaks(max: Limit, j: Stack, run: seq<ClientStack.Event>)
    requires IsOrderly(max, j, run) && IsSpeaking(j.session)
    ensures IsSpeaking(Later(max, j, run).session)
    decreases |run|
  {
    hide ClientStack.Apply, IsSpeaking, ClientStack.Possible, ClientStack.Overlaps;
    if run != [] {
      ApplySpeaks(max, j, run[0]);
      LaterSpeaks(max, ClientStack.Apply(max, j, run[0]), run[1..]);
    }
  }

  // ----- the wire

  lemma {:induction false} PayloadsJoin(h: seq<Reply>)
    ensures Join(Payloads(h)) == LogText(h)
    decreases |h|
  {
    if h != [] {
      var front, last := h[..|h| - 1], h[|h| - 1];
      assert h == front + [last];
      PayloadsJoin(front);
      PayloadsConcat(front, [last]);
      JoinConcat(Payloads(front), Payloads([last]));
      OnePayload(last);
      hide Payloads, Join;
    }
  }

  lemma OnePayload(r: Reply)
    ensures Join(Payloads([r])) == ReplyText(r)
  {
    hide ReplyText;
    assert [r][1..] == [] && [ReplyText(r)][1..] == [];
  }

  lemma JoinPrefix(a: seq<string>, b: seq<string>)
    requires a <= b
    ensures Join(a) <= Join(b)
  {
    assert b == a + b[|a|..];
    JoinConcat(a, b[|a|..]);
  }

  /**
   * Whatever bytes the client sends and however they arrive, whatever fails and whenever the owner
   * intervenes: the bytes given to the transport are a prefix of the text of a word of the reply language.
   */
  lemma SentIsPrefixOfWord(max: Limit, run: seq<ClientStack.Event>) returns (ns: seq<nat>, e: Ending)
    requires IsOrderly(max, ACCEPTED_STACK, run) && IsStranded(max, ACCEPTED_STACK, run)
    ensures var j := Later(max, ACCEPTED_STACK, run);
            j.session.replies == Log(ns, e) && Join(j.net.sent) <= LogText(Log(ns, e))
  {
    StartSpeaks();
    assert IsSpeaking(ACCEPTED_STACK.session);
    hide Later, Log, LogText, Payloads, Join;
    LaterSpeaks(max, ACCEPTED_STACK, run);
    var j := Later(max, ACCEPTED_STACK, run);
    ns, e :| Speaks(j.session, ns, e);
    RepliesSentInOrder(max, run);
    PayloadsJoin(j.session.replies);
    JoinPrefix(j.net.sent, Payloads(j.session.replies));
  }

  lemma PrefixIsReadable(limit: Limit, h: seq<Reply>, part: string)
    requires limit >= LONGEST && part <= LogText(h)
    ensures Run(limit, START, part).error == NoError
  {
    hide LogText, Run, LogTokens, Join;
    var all := LogText(h);
    JoinOne(all);
    RepliesAreRead(limit, h, [all]);
    ChunkIndependence(limit, START, [all]);
    assert all == part + all[|part|..];
    Machine.RunConcat(limit, START, part, all[|part|..]);
    if Run(limit, START, part).error != NoError {
      ErrorLatches(limit, Run(limit, START, part), all[|part|..]);
    }
  }

  lemma JoinOne(w: string)
    ensures Join([w]) == w
  {
    assert [w][1..] == [] && w + "" == w;
  }

  /** So a client that reads them with the same tokenizer never meets an error, wherever they break off. */
  lemma SentIsReadable(max: Limit, run: seq<ClientStack.Event>, limit: Limit, chunks: seq<string>)
    requires IsOrderly(max, ACCEPTED_STACK, run) && IsStranded(max, ACCEPTED_STACK, run)
    requires limit >= LONGEST && Join(chunks) <= Join(Later(max, ACCEPTED_STACK, run).net.sent)
    ensures RunChunks(limit, START, chunks).error == NoError
  {
    hide *;
    var ns, e := SentIsPrefixOfWord(max, run);
    ChunkIndependence(limit, START, chunks);
    PrefixIsReadable(limit, Log(ns, e), Join(chunks));
  }
}
