/** TLS is negotiated right after the client has been told to proceed. */
module StackUpgrade {
  import opened Counting
  import opened Options
  import opened Sequences
  import opened Tokens
  import opened Machine
  import opened SessionSteps
  import opened SessionLanguage
  import opened SessionStream
  import opened Replies
  import opened Connection
  import opened ConnectionProperties
  import opened ConnectionRuns
  import opened ConnectionOrder
  import opened ClientStack
  import opened StackRuns
  import opened StackReplies
  import Lifecycle = SessionLifecycle

  /** The last payload is `proceed`. */
  ghost predicate EndsWithProceed(payloads: seq<string>) {
    payloads != [] && payloads[|payloads| - 1] == ReplyText(Reply.Proceed)
  }

  /** What will have been sent when the work at position `i` is the first posted step left. */
  function SentBy(m: Net, i: nat): seq<string>
    requires i <= |m.pending|
  {
    m.sent + Queue(m.pending[..i])
  }

  /** The payload before each upgrade step is `proceed`. */
  ghost predicate Heralded(m: Net) {
    IsOpen(m.state) ==>
      forall i: nat | i < |m.pending| && m.pending[i] == UpgradeStep :: EndsWithProceed(SentBy(m, i))
  }

  // ----- the connection's steps

  lemma PostHeralded(m: Net, w: Work)
    requires Heralded(m) && (w == UpgradeStep && IsOpen(m.state) ==> EndsWithProceed(SentBy(m, |m.pending|)))
    ensures Heralded(Post(m, w))
  {
    assert m.pending[..|m.pending|] == m.pending;
    forall i: nat | i <= |m.pending|
      ensures SentBy(Post(m, w), i) == SentBy(m, i)
    {
      assert (m.pending + [w])[..i] == m.pending[..i];
    }
    hide EndsWithProceed, SentBy;
  }

  /** `m'` differs from `m` in neither its pending work nor what it sent, and is open only if `m` is. */
  lemma SameHeralded(m: Net, m': Net)
    requires Heralded(m) && m'.pending == m.pending && m'.sent == m.sent
    requires IsOpen(m'.state) ==> IsOpen(m.state)
    ensures Heralded(m')
  {
    assert forall i: nat | i < |m.pending| :: SentBy(m', i) == SentBy(m, i);
    hide EndsWithProceed, SentBy;
  }

  lemma CloseHeralded(m: Net, c: Option<Callback>)
    ensures Heralded(Connection.Close(m, c))
  {}

  /** `m` with the work at position `i`, which runs in its turn, taken out and its payload, if any, sent. */
  function Begun(m: Net, i: nat): Net
    requires i < |m.pending|
  {
    m.(pending := Without(m.pending, i),
       sent := m.sent + if m.pending[i].WriteStep? then [m.pending[i].data] else [])
  }

  lemma WithoutBefore(ws: seq<Work>, i: nat, j: nat)
    requires i < |ws| && j < |ws| - 1
    ensures j < i ==> Without(ws, i)[j] == ws[j] && Without(ws, i)[..j] == ws[..j]
    ensures i <= j ==> Without(ws, i)[j] == ws[j + 1] && Without(ws, i)[..j] == Without(ws[..j + 1], i)
  {}

  lemma BegunHeralded(m: Net, i: nat, c: Completion)
    requires i < |m.pending| && InTurn(m, Occur(i, c)) && Heralded(m)
    ensures Heralded(Begun(m, i))
  {
    var ws, m' := m.pending, Begun(m, i);
    forall j: nat | j < |m'.pending| && m'.pending[j] == UpgradeStep
      ensures IsOpen(m.state) ==> EndsWithProceed(SentBy(m', j))
    {
      WithoutBefore(ws, i, j);
      if j < i {
        assert !IsPosted(ws[i]) && m'.sent == m.sent;
      } else {
        BegunSends(m, i, j);
        assert ws[j + 1] == UpgradeStep;
      }
      hide EndsWithProceed, Queue, Without;
    }
    hide EndsWithProceed, SentBy;
  }

  /** Behind it nothing changes: the payload has moved from the queue to what was sent. */
  lemma BegunSends(m: Net, i: nat, j: nat)
    requires i <= j < |m.pending| - 1
    requires m.pending[i].WriteStep? ==> forall k | 0 <= k < i :: !m.pending[k].WriteStep?
    ensures SentBy(Begun(m, i), j) == SentBy(m, j + 1)
  {
    WithoutBefore(m.pending, i, j);
    var front := m.pending[..j + 1];
    assert front[i] == m.pending[i] && forall k | 0 <= k < i :: front[k] == m.pending[k];
    QueueWithout(front, i);
    var data := if m.pending[i].WriteStep? then [m.pending[i].data] else [];
    hide Queue, Without;
    Associate(m.sent, data, Queue(Begun(m, i).pending[..j]));
  }

  lemma HandleHeralded(m: Net, i: nat, c: Completion)
    requires ConnectionProperties.Invariant(m) && i < |m.pending| && InTurn(m, Occur(i, c)) && Heralded(m)
    ensures Heralded(Connection.Apply(m, Occur(i, c)))
  {
    var w, m0, m1 := m.pending[i], m.(pending := Without(m.pending, i)), Begun(m, i);
    BegunHeralded(m, i, c);
    TakeOut(m, i);
    BegunHandled(m0, m1, w, c);
    hide Heralded, Handle, Taken, Without;
  }

  lemma BegunHandled(m: Net, begun: Net, w: Work, c: Completion)
    requires Taken(m, w) && Heralded(begun)
    requires begun == m.(sent := m.sent + if w.WriteStep? then [w.data] else [])
    ensures Heralded(Handle(m, w, c))
  {
    Unit(m.sent);
    hide Heralded, Connection.Close, Tally, CallsOf, Announced, EndHandshake;
    match w
    case UpgradeStep =>
      var m1 := m.(tls := true, handshaking := true, transportOpen := m.transportOpen && !m.tls);
      SameHeralded(m, m1);
      PostHeralded(m1, Handshake);
    case Handshake => EndHandshakeHeralded(m, c);
    case ReadStep(id) =>
      PostHeralded(m, Reading(id));
      SameHeralded(m, Invoke(m, ReadCall(id, Error(OPERATION_ABORTED))));
    case Reading(id) =>
      if c.Failed? {
        CloseHeralded(m, Some(OnReadFailure(id, c.error)));
      } else {
        SameHeralded(m, Invoke(m, ReadCall(id, Data(c.bytes))));
      }
    case CancelStep => SameHeralded(m, RunCancel(m));
    case WriteStep(data) =>
      if IsOpen(m.state) { PostHeralded(begun, Writing(data)); } else { ClosedHeralded(m); }
    case Writing(_) => CloseHeralded(m, None);
    case CloseStep =>
      RunCloseInvariant(m);
      hide Taken;
      CloseStepHeralded(m);
    case Shutdown => NoShutdown(m);
  }

  lemma ClosedHeralded(m: Net)
    requires !IsOpen(m.state)
    ensures Heralded(m)
  {}

  lemma EndHandshakeHeralded(m: Net, c: Completion)
    requires Taken(m, Handshake) && Heralded(m)
    ensures Heralded(EndHandshake(m, c))
  {
    var m1 := m.(handshaking := false);
    CloseHeralded(m1, None);
    hide Heralded, Connection.Close, Tally, CallsOf, Announced;
    if m.state == Closing {
      ClosedHeralded(EndHandshake(m, c));
    } else if c.Succeeded? {
      SameHeralded(m, EndHandshake(m, c));
    }
  }

  lemma CloseStepHeralded(m: Net)
    requires !IsOpen(m.state)
    ensures Heralded(RunClose(m))
  {}

  // ----- calls

  lemma CallHeralded(m: Net, e: Connection.Event)
    requires Heralded(m) && !e.Occur?
    requires e == CallUpgrade && IsOpen(m.state) ==> EndsWithProceed(m.sent + Queue(m.pending))
    ensures Heralded(Connection.Apply(m, e))
  {
    assert m.pending[..|m.pending|] == m.pending;
    match e
    case CallUpgrade => PostHeralded(m, UpgradeStep);
    case CallRead(id) =>
      PostHeralded(m, ReadStep(id));
      SameHeralded(m, Invoke(m, ReadCall(id, Error(OPERATION_ABORTED))));
    case CallCancelRead => PostHeralded(m, CancelStep);
    case CallWrite(data) => PostHeralded(m, WriteStep(data));
    case CallClose(c) => CloseHeralded(m, if c.Some? then Some(OnClose(c.value)) else None);
    hide Heralded, Connection.Close, EndsWithProceed;
  }

  /** Calls without an upgrade among them, or upgrades alone when the last write was `proceed`. */
  lemma {:induction false} AskHeralded(m: Net, es: seq<Connection.Event>)
    requires AreCalls(es) && Heralded(m)
    requires CallUpgrade !in es || forall e | e in es :: e == CallUpgrade
    requires CallUpgrade in es && IsOpen(m.state) ==> EndsWithProceed(m.sent + Queue(m.pending))
    ensures Heralded(Ask(m, es))
    decreases |es|
  {
    CallsRun(m, es);
    if es != [] {
      var e := es[0];
      assert e in es && forall x | x in es[1..] :: x in es;
      hide Heralded, Connection.Apply, EndsWithProceed;
      var next := Connection.Apply(m, e);
      CallHeralded(m, e);
      if e == CallUpgrade { UpgradeKeeps(m); }
      AskHeralded(next, es[1..]);
      CallsRun(next, es[1..]);
    }
  }

  lemma UpgradeKeeps(m: Net)
    ensures var m' := Connection.Apply(m, CallUpgrade);
            m'.state == m.state && m'.sent + Queue(m'.pending) == m.sent + Queue(m.pending)
  {
    QueueSnoc(m.pending, UpgradeStep);
    Unit(Queue(m.pending));
    hide Queue;
  }

  lemma AskConcat(m: Net, a: seq<Connection.Event>, b: seq<Connection.Event>)
    requires AreCalls(a) && AreCalls(b)
    ensures AreCalls(a + b) && Ask(m, a + b) == Ask(Ask(m, a), b)
  {
    CallsRun(m, a);
    CallsRun(Ask(m, a), b);
    CallsRun(m, a + b);
    OrderlyIsRun(m, a);
    OrderlyIsRun(Ask(m, a), b);
    ConnectionRuns.RunConcat(m, a, b);
    hide Execute, IsRun, IsOrderlyRun;
  }

  lemma {:induction false} WriteCallsWrite(h: seq<Reply>)
    ensures AreCalls(WriteCalls(h)) && CallUpgrade !in WriteCalls(h)
  {
    hide ReplyText;
    if h != [] { WriteCallsWrite(h[1..]); }
  }

  lemma {:induction false} RepeatRepeats(e: Connection.Event, n: nat)
    requires !e.Occur?
    ensures AreCalls(Repeat(e, n)) && (forall x | x in Repeat(e, n) :: x == e) && |Repeat(e, n)| == n
  {
    if n > 0 { RepeatRepeats(e, n - 1); }
  }

  // ----- a session's requests

  /** An upgrade is asked for right after saying `proceed`. */
  predicate UpgradesAfterProceed(s: Session, s': Session) {
    s'.upgrades > s.upgrades ==> s'.replies != [] && s'.replies[|s'.replies| - 1] == Reply.Proceed
  }

  lemma TokenUpgradesAfterProceed(s: Session, t: XmlToken, env: Environment)
    requires Lifecycle.Books(s) && !IsDone(s)
    ensures UpgradesAfterProceed(s, OnXmlToken(s, t, env))
  {
    hide IsElement, IsBlankText, Opens, Closes;
  }

  lemma PayloadsEnd(h: seq<Reply>)
    requires h != [] && h[|h| - 1] == Reply.Proceed
    ensures EndsWithProceed(Payloads(h))
  {
    hide ReplyText, Payloads;
    var front := h[..|h| - 1];
    assert h == front + [Reply.Proceed];
    PayloadsConcat(front, [Reply.Proceed]);
    PayloadOf(Reply.Proceed);
  }

  lemma PayloadOf(r: Reply)
    ensures Payloads([r]) == [ReplyText(r)]
  {
    hide ReplyText;
    assert [r][1..] == [];
  }

  /** The writes of a request keep what was written in order. */
  lemma WritesOrdered(m: Net, s: Session, s': Session)
    requires ConnectionProperties.Invariant(m) && Grows(s, s') && Ordered(m, Payloads(s.replies))
    ensures AreCalls(WriteCalls(Said(s, s'))) && Ordered(Ask(m, WriteCalls(Said(s, s'))), Payloads(s'.replies))
  {
    var es := WriteCalls(Said(s, s'));
    WriteCallsCarry(Said(s, s'), Closer(CLOSER));
    SaidPayloads(s, s');
    CallsRun(m, es);
    RunOrdered(m, es, Payloads(s.replies));
    hide *;
  }

  lemma OrderedIsWritten(m: Net, written: seq<string>)
    requires Ordered(m, written) && IsOpen(m.state)
    ensures m.sent + Queue(m.pending) == written
  {}

  lemma UpgradesHeralded(m: Net, n: nat, h: seq<Reply>)
    requires Heralded(m) && Ordered(m, Payloads(h))
    requires n > 0 ==> h != [] && h[|h| - 1] == Reply.Proceed
    ensures AreCalls(Repeat(CallUpgrade, n)) && Heralded(Ask(m, Repeat(CallUpgrade, n)))
  {
    hide *;
    RepeatRepeats(CallUpgrade, n);
    if n == 0 {
      assert Repeat(CallUpgrade, n) == [];
    } else {
      PayloadsEnd(h);
      if IsOpen(m.state) { OrderedIsWritten(m, Payloads(h)); }
    }
    AskHeralded(m, Repeat(CallUpgrade, n));
  }

  lemma SpeakingHeralded(m: Net, s: Session, s': Session, n: nat)
    requires ConnectionProperties.Invariant(m) && Grows(s, s') && Ordered(m, Payloads(s.replies)) && Heralded(m)
    requires n > 0 ==> s'.replies != [] && s'.replies[|s'.replies| - 1] == Reply.Proceed
    ensures var es := WriteCalls(Said(s, s')) + Repeat(CallUpgrade, n);
            AreCalls(es) && Heralded(Ask(m, es))
  {
    hide *;
    var a, b := WriteCalls(Said(s, s')), Repeat(CallUpgrade, n);
    WritesOrdered(m, s, s');
    WriteCallsWrite(Said(s, s'));
    AskHeralded(m, a);
    UpgradesHeralded(Ask(m, a), n, s'.replies);
    AskConcat(m, a, b);
  }

  /** Cancelling and closing come last. */
  lemma ClosingHeralded(m: Net, es: seq<Connection.Event>, cancels: nat, closes: nat)
    requires AreCalls(es) && Heralded(Ask(m, es))
    ensures var all := es + Repeat(CallCancelRead, cancels) + Repeat(CLOSE, closes);
            AreCalls(all) && Heralded(Ask(m, all))
  {
    var c, d := Repeat(CallCancelRead, cancels), Repeat(CLOSE, closes);
    NotUpgrades();
    hide *;
    RepeatRepeats(CallCancelRead, cancels);
    RepeatRepeats(CLOSE, closes);
    AskHeralded(Ask(m, es), c);
    AskConcat(m, es, c);
    AskHeralded(Ask(m, es + c), d);
    AskConcat(m, es + c, d);
  }

  lemma NotUpgrades()
    ensures CallCancelRead != CallUpgrade && CLOSE != CallUpgrade && !CLOSE.Occur?
  {}

  lemma RequestsHeralded(m: Net, s: Session, s': Session)
    requires ConnectionProperties.Invariant(m) && Grows(s, s') && UpgradesAfterProceed(s, s')
    requires Ordered(m, Payloads(s.replies)) && Heralded(m)
    ensures AreCalls(Requests(s, s')) && Heralded(Ask(m, Requests(s, s')))
  {
    hide Ordered, Payloads, Heralded, Ask, AreCalls, WriteCalls, Repeat, Said, ConnectionProperties.Invariant;
    var n := s'.upgrades - s.upgrades;
    SpeakingHeralded(m, s, s', n);
    ClosingHeralded(m, WriteCalls(Said(s, s')) + Repeat(CallUpgrade, n), s'.cancels - s.cancels, s'.closes - s.closes);
  }

  lemma {:induction false} HearHeralded(m: Net, s: Session, ts: seq<XmlToken>, env: Environment)
    requires ConnectionProperties.Invariant(m) && Lifecycle.Books(s)
    requires Ordered(m, Payloads(s.replies)) && Heralded(m)
    ensures AreCalls(HearRequests(s, ts, env)) && Heralded(Ask(m, HearRequests(s, ts, env)))
    decreases |ts|
  {
    hide OnXmlToken, Carries, Requests, Heralded, Ordered, Payloads, Lifecycle.Books, ConnectionProperties.Invariant;
    if ts == [] || IsDone(s) {
      assert Ask(m, []) == m;
    } else {
      var s' := OnXmlToken(s, ts[0], env);
      TokenGrows(s, ts[0], env);
      TokenUpgradesAfterProceed(s, ts[0], env);
      Lifecycle.TokenBooks(s, ts[0], env);
      RequestsCarry(s, s');
      RequestsHeralded(m, s, s');
      var es, rest := Requests(s, s'), HearRequests(s', ts[1..], env);
      hide Ask;
      CarriesCalls(es, s, s');
      AskOrdered(m, es, s, s');
      AskKeeps(m, es);
      HearHeralded(Ask(m, es), s', ts[1..], env);
      AskConcat(m, es, rest);
    }
  }

  lemma CarriesCalls(es: seq<Connection.Event>, s: Session, s': Session)
    requires Carries(es, s, s')
    ensures AreCalls(es)
  {}

  // ----- runs

  lemma ActHeralded(j: Stack, s: Session)
    requires Agree(j) && InOrder(j) && Heralded(j.net) && Grows(j.session, s) && s.upgrades == j.session.upgrades
    ensures Heralded(Act(j, s).net)
  {
    RequestsCarry(j.session, s);
    RequestsHeralded(j.net, j.session, s);
    hide Requests, Carries, Heralded, Ordered, Payloads;
  }

  lemma FinishReadHeralded(max: Limit, j: Stack, r: ReadResult, tlsReady: bool)
    requires j.session.outstandingReads > 0 && InOrder(j) && Heralded(j.net)
    requires Agree(j.(session := j.session.(outstandingReads := j.session.outstandingReads - 1)))
    ensures Heralded(FinishRead(max, j, r, tlsReady).net)
  {
    var s := j.session.(outstandingReads := j.session.outstandingReads - 1);
    var j0 := j.(session := s);
    if !Listens(s, r) {
      FlagsGrow(s);
      hide Agree, Run, Heralded, Ordered, Payloads;
      ActHeralded(j0, if !s.shutDown && s.connected then SessionSteps.Shutdown(s) else s);
    } else {
      var env := Environment(j.net.state == Secure, tlsReady);
      var ts := NewTokens(j.reader, Run(max, j.reader, r.bytes));
      hide Run, NewTokens, Hear, HearRequests, Ask, Ordered, Payloads, Heralded;
      HearCarries(s, ts, env);
      HearHeralded(j.net, s, ts, env);
      CallHeralded(Ask(j.net, HearRequests(s, ts, env)), CallRead(READER));
    }
  }

  lemma ApplyHeralded(max: Limit, j: Stack, e: ClientStack.Event)
    requires Agree(j) && InOrder(j) && Heralded(j.net)
    requires ClientStack.Possible(j, e) && !ClientStack.Overlaps(j, e)
    requires e.Handler? ==> InTurn(j.net, Occur(e.index, e.completion))
    ensures Heralded(ClientStack.Apply(max, j, e).net)
  {
    match e
    case Handler(i, c) => HandleHeralded(j.net, i, c);
    case Delivery(tlsReady) =>
      ToldAgrees(j);
      hide Agree, FinishRead, Ordered, Payloads, Heralded;
      if j.net.calls[j.delivered].ReadCall? {
        FinishReadHeralded(max, j.(delivered := j.delivered + 1), j.net.calls[j.delivered].result, tlsReady);
      }
    case OwnerStops =>
      FlagsGrow(j.session);
      hide Agree, InOrder, Heralded;
      ActHeralded(j, Stop(j.session));
    case OwnerShutsDown =>
      FlagsGrow(j.session);
      hide Agree, InOrder, Heralded;
      ActHeralded(j, SessionSteps.Shutdown(j.session));
  }

  lemma {:induction false} LaterHeralded(max: Limit, j: Stack, run: seq<ClientStack.Event>)
    requires Agree(j) && InOrder(j) && Heralded(j.net) && IsOrderly(max, j, run) && IsStranded(max, j, run)
    ensures Heralded(Later(max, j, run).net)
    decreases |run|
  {
    hide ClientStack.Apply, Agree, InOrder, Heralded, InTurn, ClientStack.Possible, ClientStack.Overlaps;
    if run != [] {
      ApplyAgrees(max, j, run[0]);
      ApplyInOrder(max, j, run[0]);
      ApplyHeralded(max, j, run[0]);
      LaterHeralded(max, ClientStack.Apply(max, j, run[0]), run[1..]);
    }
  }

  /**
   * When an upgrade step runs on a connection that is still open, the last thing its transport has been
   * given is `proceed`: the handshake the step starts comes right after it.
   */
  lemma HandshakeFollowsProceed(max: Limit, run: seq<ClientStack.Event>, i: nat, c: Completion)
    requires IsOrderly(max, ACCEPTED_STACK, run) && IsStranded(max, ACCEPTED_STACK, run)
    requires var m := Later(max, ACCEPTED_STACK, run).net;
             IsOpen(m.state) && i < |m.pending| && m.pending[i] == UpgradeStep && InTurn(m, Occur(i, c))
    ensures EndsWithProceed(Later(max, ACCEPTED_STACK, run).net.sent)
  {
    hide *;
    AcceptedAgrees();
    AcceptedInOrder();
    AcceptedHeralded();
    LaterHeralded(max, ACCEPTED_STACK, run);
    NextInLine(Later(max, ACCEPTED_STACK, run).net, i, c);
  }

  lemma AcceptedHeralded()
    ensures Heralded(ACCEPTED_STACK.net)
  {}

  lemma NextInLine(m: Net, i: nat, c: Completion)
    requires Heralded(m) && IsOpen(m.state) && i < |m.pending| && m.pending[i] == UpgradeStep && InTurn(m, Occur(i, c))
    ensures EndsWithProceed(m.sent)
  {
    QueueOfOthers(m.pending[..i]);
    Unit(m.sent);
    hide Queue, EndsWithProceed;
  }
}
