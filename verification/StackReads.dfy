/** What a client sends is what its session reads: from the completed reads through the tokenizer. */
module StackReads {
  import opened Sequences
  import opened Tokens
  import opened Machine
  import opened SessionSteps
  import opened SessionStream
  import opened Connection
  import opened ConnectionProperties
  import opened ConnectionRuns
  import opened ConnectionReads
  import opened ClientStack
  import opened StackRuns
  import opened StackReplies
  import Lifecycle = SessionLifecycle

  // ----- from the network to the read callbacks

  /** The bytes with which the connection's reads succeed along a run, in order. */
  ghost function Arrived(max: Limit, j: Stack, run: seq<ClientStack.Event>): seq<string>
    requires IsOrderly(max, j, run)
    decreases |run|
  {
    if run == [] then []
    else
      (if run[0].Handler? && Succeeds(j.net, Occur(run[0].index, run[0].completion), READER)
       then [run[0].completion.bytes] else []) +
      Arrived(max, ClientStack.Apply(max, j, run[0]), run[1..])
  }

  lemma {:induction false} CallsReceiveNothing(m: Net, es: seq<Connection.Event>)
    requires AreCalls(es)
    ensures DataOf(Ask(m, es).calls, READER) == DataOf(m.calls, READER)
    decreases |es|
  {
    CallsRun(m, es);
    if es != [] {
      assert es[0] in es;
      assert AreCalls(es[1..]) by { assert forall e | e in es[1..] :: e in es; }
      hide Connection.Apply, DataOf;
      ApplyData(m, es[0], READER);
      Unit(DataOf(m.calls, READER));
      CallsReceiveNothing(Connection.Apply(m, es[0]), es[1..]);
      CallsRun(Connection.Apply(m, es[0]), es[1..]);
    }
  }

  lemma FinishReadReceives(max: Limit, j: Stack, r: ReadResult, tlsReady: bool)
    requires j.session.outstandingReads > 0
    ensures DataOf(FinishRead(max, j, r, tlsReady).net.calls, READER) == DataOf(j.net.calls, READER)
  {
    var s := j.session.(outstandingReads := j.session.outstandingReads - 1);
    if !Listens(s, r) {
      FlagsGrow(s);
      var s' := if !s.shutDown && s.connected then SessionSteps.Shutdown(s) else s;
      RequestsCarry(s, s');
      CallsReceiveNothing(j.net, Requests(s, s'));
      hide Requests, Ask, DataOf, Run;
    } else {
      var env := Environment(j.net.state == Secure, tlsReady);
      var ts := NewTokens(j.reader, Run(max, j.reader, r.bytes));
      hide Run, NewTokens, Hear, HearRequests, Ask, DataOf;
      HearCarries(s, ts, env);
      var net := Ask(j.net, HearRequests(s, ts, env));
      CallsReceiveNothing(j.net, HearRequests(s, ts, env));
      ApplyData(net, CallRead(READER), READER);
      Unit(DataOf(net.calls, READER));
    }
  }

  lemma ActReceives(j: Stack, s: Session)
    requires Grows(j.session, s)
    ensures DataOf(Act(j, s).net.calls, READER) == DataOf(j.net.calls, READER)
  {
    RequestsCarry(j.session, s);
    CallsReceiveNothing(j.net, Requests(j.session, s));
    hide Requests, Ask, DataOf;
  }

  lemma ApplyReceives(max: Limit, j: Stack, e: ClientStack.Event)
    requires ClientStack.Possible(j, e)
    ensures DataOf(ClientStack.Apply(max, j, e).net.calls, READER) ==
            DataOf(j.net.calls, READER) +
            if e.Handler? && Succeeds(j.net, Occur(e.index, e.completion), READER) then [e.completion.bytes] else []
  {
    Unit(DataOf(j.net.calls, READER));
    hide DataOf, FinishRead, Act;
    match e
    case Handler(i, c) => ApplyData(j.net, Occur(i, c), READER);
    case Delivery(tlsReady) =>
      var c := j.net.calls[j.delivered];
      if c.ReadCall? { FinishReadReceives(max, j.(delivered := j.delivered + 1), c.result, tlsReady); }
    case OwnerStops =>
      FlagsGrow(j.session);
      ActReceives(j, Stop(j.session));
    case OwnerShutsDown =>
      FlagsGrow(j.session);
      ActReceives(j, SessionSteps.Shutdown(j.session));
  }

  lemma {:induction false} LaterReceives(max: Limit, j: Stack, run: seq<ClientStack.Event>)
    requires IsOrderly(max, j, run)
    ensures DataOf(Later(max, j, run).net.calls, READER) == DataOf(j.net.calls, READER) + Arrived(max, j, run)
    decreases |run|
  {
    hide DataOf, ClientStack.Apply, ClientStack.Possible, ClientStack.Overlaps;
    if run == [] {
      Unit(DataOf(j.net.calls, READER));
    } else {
      var now := if run[0].Handler? && Succeeds(j.net, Occur(run[0].index, run[0].completion), READER)
                 then [run[0].completion.bytes] else [];
      ApplyReceives(max, j, run[0]);
      LaterReceives(max, ClientStack.Apply(max, j, run[0]), run[1..]);
      Associate(DataOf(j.net.calls, READER), now, Arrived(max, ClientStack.Apply(max, j, run[0]), run[1..]));
    }
  }

  // ----- from the read callbacks to the tokenizer

  /** The session listens to the read it is told of. */
  predicate Hears(j: Stack, e: ClientStack.Event) {
    e.Delivery? && j.delivered < |j.net.calls| && j.net.calls[j.delivered].ReadCall? &&
    Listens(j.session, j.net.calls[j.delivered].result)
  }

  function HeardRead(j: Stack, e: ClientStack.Event): Read
    requires Hears(j, e)
  {
    Read(j.net.calls[j.delivered].result.bytes, Environment(j.net.state == Secure, e.tlsReady))
  }

  /** The reads the session listens to along a run, in order, each with its surroundings. */
  ghost function Heard(max: Limit, j: Stack, run: seq<ClientStack.Event>): seq<Read>
    requires IsOrderly(max, j, run)
    decreases |run|
  {
    if run == [] then []
    else
      (if Hears(j, run[0]) then [HeardRead(j, run[0])] else []) +
      Heard(max, ClientStack.Apply(max, j, run[0]), run[1..])
  }

  function BytesOf(rs: seq<Read>): string {
    if rs == [] then "" else rs[0].bytes + BytesOf(rs[1..])
  }

  lemma {:induction false} BytesConcat(a: seq<Read>, b: seq<Read>)
    ensures BytesOf(a + b) == BytesOf(a) + BytesOf(b)
  {
    if a == [] {
      assert a + b == b;
    } else {
      assert (a + b)[1..] == a[1..] + b;
      BytesConcat(a[1..], b);
    }
  }

  lemma ApplyReads(max: Limit, j: Stack, e: ClientStack.Event)
    requires ClientStack.Possible(j, e)
    ensures ClientStack.Apply(max, j, e).reader ==
            if Hears(j, e) then Run(max, j.reader, HeardRead(j, e).bytes) else j.reader
  {
    hide Run, Hear, HearRequests, Requests, Carries, NewTokens;
  }

  /** The tokenizer has read exactly the bytes of the reads the session listened to. */
  lemma {:induction false} ReaderReads(max: Limit, j: Stack, run: seq<ClientStack.Event>)
    requires IsOrderly(max, j, run)
    ensures Later(max, j, run).reader == Run(max, j.reader, BytesOf(Heard(max, j, run)))
    decreases |run|
  {
    hide ClientStack.Apply, Hears, ClientStack.Possible, ClientStack.Overlaps;
    if run != [] {
      var next := ClientStack.Apply(max, j, run[0]);
      ApplyReads(max, j, run[0]);
      ReaderReads(max, next, run[1..]);
      if Hears(j, run[0]) {
        var r := HeardRead(j, run[0]);
        assert ([r] + Heard(max, next, run[1..]))[1..] == Heard(max, next, run[1..]);
        Machine.RunConcat(max, j.reader, r.bytes, BytesOf(Heard(max, next, run[1..])));
      } else {
        Unit(Heard(max, next, run[1..]));
      }
      hide Run;
    }
  }

  // ----- how much of what arrives is heard

  /** `heard` is all that has been told to a session never stopped, and the beginning of it after that. */
  ghost predicate Follows(j: Stack, heard: string) {
    j.delivered <= |j.net.calls| &&
    if j.session.stopped then heard <= Join(DataOf(j.net.calls, READER))
    else heard == Join(DataOf(j.net.calls[..j.delivered], READER))
  }

  lemma {:induction false} DataConcat(a: seq<Call>, b: seq<Call>, id: nat)
    ensures DataOf(a + b, id) == DataOf(a, id) + DataOf(b, id)
    decreases |b|
  {
    if b == [] {
      Unit(a);
      Unit(DataOf(a, id));
    } else {
      var front, last := b[..|b| - 1], b[|b| - 1];
      assert a + b == (a + front) + [last] && b == front + [last];
      DataConcat(a, front, id);
      DataSnoc(a + front, last, id);
      DataSnoc(front, last, id);
      Associate(DataOf(a, id), DataOf(front, id),
                if last.ReadCall? && last.result.Data? && last.id == id then [last.result.bytes] else []);
      hide DataOf;
    }
  }

  /** What was told first is the beginning of what is told in all. */
  lemma DataPrefix(a: seq<Call>, b: seq<Call>)
    requires a <= b
    ensures Join(DataOf(a, READER)) <= Join(DataOf(b, READER))
  {
    assert b == a + b[|a|..];
    DataConcat(a, b[|a|..], READER);
    hide DataOf;
    JoinPrefix(DataOf(a, READER), DataOf(b, READER));
  }

  lemma PrefixTransitive(a: string, b: string, c: string)
    requires a <= b <= c
    ensures a <= c
  {}

  /** The calls grow, and a session once stopped stays so. */
  lemma ApplyGrows(max: Limit, j: Stack, e: ClientStack.Event)
    requires Agree(j) && ClientStack.Possible(j, e) && !ClientStack.Overlaps(j, e)
    ensures var j' := ClientStack.Apply(max, j, e);
            && j.net.calls <= j'.net.calls && (j.session.stopped ==> j'.session.stopped)
            && j'.delivered == j.delivered + (if e.Delivery? then 1 else 0)
            && (e.Delivery? && !Hears(j, e) && j.net.calls[j.delivered].ReadCall? ==> j'.session.stopped)
  {
    hide Run, NewTokens, Hear, HearRequests, Requests, Ask, Connection.Apply, ConnectionProperties.Invariant;
    match e
    case Handler(i, c) => CallsGrow(j.net, Occur(i, c));
    case Delivery(tlsReady) =>
      var c := j.net.calls[j.delivered];
      if c.ReadCall? { FinishReadGrows(max, j.(delivered := j.delivered + 1), c.result, tlsReady); }
    case OwnerStops =>
      FlagsGrow(j.session);
      ActGrows(j, Stop(j.session));
    case OwnerShutsDown =>
      FlagsGrow(j.session);
      ActGrows(j, SessionSteps.Shutdown(j.session));
  }

  lemma ActGrows(j: Stack, s: Session)
    requires Agree(j) && Grows(j.session, s)
    ensures j.net.calls <= Act(j, s).net.calls
  {
    RequestsCarry(j.session, s);
    AskKeeps(j.net, Requests(j.session, s));
    hide Requests, Ask;
  }

  lemma FinishReadGrows(max: Limit, j: Stack, r: ReadResult, tlsReady: bool)
    requires j.session.outstandingReads > 0 && Lifecycle.Books(j.session) && ConnectionProperties.Invariant(j.net)
    ensures var j' := FinishRead(max, j, r, tlsReady);
            && j.net.calls <= j'.net.calls && j'.delivered == j.delivered
            && (j.session.stopped || !Listens(j.session, r) ==> j'.session.stopped)
  {
    var s := j.session.(outstandingReads := j.session.outstandingReads - 1);
    if !Listens(s, r) {
      FlagsGrow(s);
      var s' := if !s.shutDown && s.connected then SessionSteps.Shutdown(s) else s;
      RequestsCarry(s, s');
      AskKeeps(j.net, Requests(s, s'));
      hide Requests, Ask, Run;
    } else {
      var env := Environment(j.net.state == Secure, tlsReady);
      var ts := NewTokens(j.reader, Run(max, j.reader, r.bytes));
      hide Run, NewTokens, Hear, HearRequests, Ask;
      HearCarries(s, ts, env);
      var net := Ask(j.net, HearRequests(s, ts, env));
      AskKeeps(j.net, HearRequests(s, ts, env));
      CallsGrow(net, CallRead(READER));
    }
  }

  lemma JoinSnoc(ss: seq<string>, s: string)
    ensures Join(ss + [s]) == Join(ss) + s
  {
    JoinConcat(ss, [s]);
    JoinOne(s);
    hide Join;
  }

  lemma DeliveryFollows(max: Limit, j: Stack, e: ClientStack.Event, heard: string)
    requires Agree(j) && Follows(j, heard) && e.Delivery? && ClientStack.Possible(j, e)
    ensures Follows(ClientStack.Apply(max, j, e), heard + if Hears(j, e) then HeardRead(j, e).bytes else "")
  {
    var j', d := ClientStack.Apply(max, j, e), j.delivered;
    hide DataOf, Agree, ClientStack.Apply, Join;
    ApplyGrows(max, j, e);
    DeliveryAwaited(j);
    DataUpTo(j.net.calls, j'.net.calls, d);
    Unit(heard);
  }

  /** One call more: what it adds to the data told, and that all of it is among the data of the calls to come. */
  lemma DataUpTo(calls: seq<Call>, later: seq<Call>, d: nat)
    requires d < |calls| && calls <= later
    requires calls[d].ReadCall? ==> calls[d].id == READER
    ensures Join(DataOf(later[..d + 1], READER)) ==
            Join(DataOf(calls[..d], READER)) +
            if calls[d].ReadCall? && calls[d].result.Data? then calls[d].result.bytes else ""
    ensures Join(DataOf(later[..d + 1], READER)) <= Join(DataOf(later, READER))
    ensures Join(DataOf(calls[..d], READER)) <= Join(DataOf(later, READER))
    ensures Join(DataOf(calls, READER)) <= Join(DataOf(later, READER))
  {
    var before, c := calls[..d], calls[d];
    assert later[..d + 1] == before + [c];
    hide DataOf, Join;
    DataSnoc(before, c, READER);
    Unit(DataOf(before, READER));
    Unit(Join(DataOf(before, READER)));
    DataPrefix(before + [c], later);
    DataPrefix(before, later);
    DataPrefix(calls, later);
    if c.ReadCall? && c.result.Data? { JoinSnoc(DataOf(before, READER), c.result.bytes); }
  }

  lemma ApplyFollows(max: Limit, j: Stack, e: ClientStack.Event, heard: string)
    requires Agree(j) && Follows(j, heard) && ClientStack.Possible(j, e) && !ClientStack.Overlaps(j, e)
    ensures Follows(ClientStack.Apply(max, j, e), heard + if Hears(j, e) then HeardRead(j, e).bytes else "")
  {
    if e.Delivery? {
      DeliveryFollows(max, j, e, heard);
    } else {
      var j' := ClientStack.Apply(max, j, e);
      ApplyGrows(max, j, e);
      Unit(heard);
      assert j'.net.calls[..j.delivered] == j.net.calls[..j.delivered];
      DataPrefix(j.net.calls[..j.delivered], j'.net.calls);
      DataPrefix(j.net.calls, j'.net.calls);
      assert j'.session.stopped || !j.session.stopped;
      hide DataOf, Join, Agree, Connection.Apply, Requests, Ask;
    }
  }

  lemma {:induction false} LaterFollows(max: Limit, j: Stack, run: seq<ClientStack.Event>, heard: string)
    requires Agree(j) && Follows(j, heard) && IsOrderly(max, j, run)
    ensures Follows(Later(max, j, run), heard + BytesOf(Heard(max, j, run)))
    decreases |run|
  {
    hide ClientStack.Apply, Agree, Follows, Hears, ClientStack.Possible, ClientStack.Overlaps;
    if run == [] {
      Unit(heard);
    } else {
      var next := ClientStack.Apply(max, j, run[0]);
      var now, rest := if Hears(j, run[0]) then [HeardRead(j, run[0])] else [], Heard(max, next, run[1..]);
      var bytes := if Hears(j, run[0]) then HeardRead(j, run[0]).bytes else "";
      ApplyAgrees(max, j, run[0]);
      ApplyFollows(max, j, run[0], heard);
      LaterFollows(max, next, run[1..], heard + bytes);
      BytesConcat(now, rest);
      OneRead(now, bytes);
      Associate(heard, bytes, BytesOf(rest));
      hide BytesOf;
    }
  }

  lemma OneRead(rs: seq<Read>, bytes: string)
    requires |rs| <= 1 && bytes == if rs == [] then "" else rs[0].bytes
    ensures BytesOf(rs) == bytes
  {
    if rs != [] {
      assert rs[1..] == [];
      Unit(bytes);
    }
  }

  /**
   * The bytes a client's reads receive reach the tokenizer in order, none lost or doubled: all of them
   * that have been told to a session never stopped, and the beginning of them otherwise.
   */
  lemma BytesReachTokenizer(max: Limit, run: seq<ClientStack.Event>)
    requires IsOrderly(max, ACCEPTED_STACK, run)
    ensures var j := Later(max, ACCEPTED_STACK, run);
            var heard, arrived := BytesOf(Heard(max, ACCEPTED_STACK, run)), Join(Arrived(max, ACCEPTED_STACK, run));
            && j.reader == Run(max, START, heard)
            && heard <= arrived
            && (!j.session.stopped && j.delivered == |j.net.calls| ==> heard == arrived)
  {
    AcceptedAgrees();
    AcceptedFollows();
    var heard, j := BytesOf(Heard(max, ACCEPTED_STACK, run)), Later(max, ACCEPTED_STACK, run);
    ReaderReads(max, ACCEPTED_STACK, run);
    LaterFollows(max, ACCEPTED_STACK, run, "");
    LaterReceives(max, ACCEPTED_STACK, run);
    Unit(heard);
    Unit(Arrived(max, ACCEPTED_STACK, run));
    DataPrefix(j.net.calls[..j.delivered], j.net.calls);
    assert j.net.calls[..|j.net.calls|] == j.net.calls;
    hide Later, Heard, Arrived, DataOf, Join, Run, BytesOf, Agree;
  }

  lemma AcceptedFollows()
    ensures Follows(ACCEPTED_STACK, "") && DataOf(ACCEPTED_STACK.net.calls, READER) == []
  {}

  // ----- and what it answers

  /** What a session has said and where it stands with its client, its reads and its end aside. */
  datatype Standing = Standing(handler: Handler, replies: seq<Reply>, upgrades: nat, threw: bool)

  function StandingOf(s: Session): Standing {
    Standing(s.handler, s.replies, s.upgrades, s.threw)
  }

  lemma FlagsStand(s: Session)
    ensures StandingOf(Stop(s)) == StandingOf(SessionSteps.Shutdown(s)) == StandingOf(s)
  {}

  lemma ApplyStands(max: Limit, j: Stack, e: ClientStack.Event)
    requires ClientStack.Possible(j, e)
    ensures var s' := ClientStack.Apply(max, j, e).session;
            && (!Hears(j, e) ==> StandingOf(s') == StandingOf(j.session))
            && (e.Handler? ==> s' == j.session)
            && (Hears(j, e) ==>
                  && j.session.outstandingReads > 0
                  && s' == OnRead(j.session,
                                  ReadEnd.Tokens(NewTokens(j.reader, Run(max, j.reader, HeardRead(j, e).bytes)),
                                                 HeardRead(j, e).env)))
  {
    hide Run, NewTokens, Hear, HearRequests, Requests, Carries, Ask, OnRead;
    match e
    case Handler(_, _) =>
    case Delivery(tlsReady) =>
      var told, c := j.(delivered := j.delivered + 1), j.net.calls[j.delivered];
      if c.ReadCall? {
        FinishReadIsOnRead(max, told, c.result, tlsReady);
        FlagsStand(j.session.(outstandingReads := j.session.outstandingReads - 1));
      }
    case _ => FlagsStand(j.session);
  }

  /** A session that will be told of no more reads: it is stopped, or an exception has left it. */
  predicate IsSilent(s: Session) {
    s.stopped || (s.threw && s.outstandingReads == 0)
  }

  /** One that will be can go on reading unless it is done. */
  predicate CanRead(s: Session) {
    !IsDone(s) ==> s.outstandingReads > 0 && !s.stopped && s.connected
  }

  lemma ApplySilent(max: Limit, j: Stack, e: ClientStack.Event)
    requires Agree(j) && ClientStack.Possible(j, e) && !ClientStack.Overlaps(j, e)
    ensures var s' := ClientStack.Apply(max, j, e).session;
            && (IsSilent(j.session) ==> IsSilent(s') && !Hears(j, e))
            && (!Hears(j, e) ==> s' == j.session || s'.stopped)
  {
    ApplyGrows(max, j, e);
    ApplyStands(max, j, e);
    hide Agree, Run, NewTokens, FinishRead, Requests, Carries, Ask;
  }

  lemma {:induction false} SilentHearsNothing(max: Limit, j: Stack, run: seq<ClientStack.Event>)
    requires Agree(j) && IsSilent(j.session) && IsOrderly(max, j, run)
    ensures Heard(max, j, run) == [] && StandingOf(Later(max, j, run).session) == StandingOf(j.session)
    decreases |run|
  {
    hide ClientStack.Apply, Agree, ClientStack.Possible, ClientStack.Overlaps, StandingOf, IsSilent, Hears;
    if run != [] {
      ApplyAgrees(max, j, run[0]);
      ApplyStands(max, j, run[0]);
      ApplySilent(max, j, run[0]);
      SilentHearsNothing(max, ClientStack.Apply(max, j, run[0]), run[1..]);
    }
  }

  /** What a read leaves of a live session: one that is silent or can read again. */
  lemma ReadLeaves(s: Session, ts: seq<XmlToken>, env: Environment)
    requires Lifecycle.Invariant(s) && !s.stopped && !s.threw && s.outstandingReads > 0
    ensures var s' := OnRead(s, ReadEnd.Tokens(ts, env)); IsSilent(s') || (CanRead(s') && !s'.threw)
  {
    var s0 := s.(outstandingReads := 0);
    Lifecycle.HearBooks(s0, ts, env);
    hide Hear;
  }

  /** A run from a session that can read: what it answers is what it hears. */
  lemma {:induction false} AnswersHeard(max: Limit, j: Stack, run: seq<ClientStack.Event>)
    requires Agree(j) && Lifecycle.Invariant(j.session) && !j.session.threw && CanRead(j.session)
    requires IsOrderly(max, j, run)
    ensures StandingOf(Later(max, j, run).session) ==
            StandingOf(Reads(max, j.reader, j.session, Heard(max, j, run)))
    decreases |run|, 0
  {
    hide ClientStack.Apply, Agree, Lifecycle.Invariant, ClientStack.Possible, ClientStack.Overlaps, StandingOf, Hears,
      OnRead, Run, NewTokens, IsSilent;
    if IsDone(j.session) {
      ShutDownIsSilent(j.session);
      SilentHearsNothing(max, j, run);
    } else if run != [] {
      var next, rest := ClientStack.Apply(max, j, run[0]), Heard(max, ClientStack.Apply(max, j, run[0]), run[1..]);
      ApplyAgrees(max, j, run[0]);
      ApplyLives(max, j, run[0]);
      ApplyStands(max, j, run[0]);
      ApplyReads(max, j, run[0]);
      ApplySilent(max, j, run[0]);
      if Hears(j, run[0]) {
        var r := HeardRead(j, run[0]);
        var ts := NewTokens(j.reader, Run(max, j.reader, r.bytes));
        ReadLeaves(j.session, ts, r.env);
        assert ([r] + rest)[0] == r && ([r] + rest)[1..] == rest;
        ReadKeepsGoing(j.session, ts, r.env);
        NextAnswers(max, next, run[1..]);
      } else {
        Unit(rest);
        if next.session == j.session {
          AnswersHeard(max, next, run[1..]);
        } else {
          StoppedIsSilent(next.session);
          SilentHearsNothing(max, next, run[1..]);
        }
      }
    }
  }

  lemma StoppedIsSilent(s: Session)
    requires s.stopped
    ensures IsSilent(s)
  {}

  lemma ShutDownIsSilent(s: Session)
    requires Lifecycle.Invariant(s) && s.shutDown
    ensures IsSilent(s)
  {}

  lemma {:induction false} NextAnswers(max: Limit, j: Stack, run: seq<ClientStack.Event>)
    requires Agree(j) && Lifecycle.Invariant(j.session) && IsOrderly(max, j, run)
    requires CanRead(j.session) && (IsSilent(j.session) || !j.session.threw)
    ensures StandingOf(Later(max, j, run).session) ==
            StandingOf(Reads(max, j.reader, j.session, Heard(max, j, run)))
    decreases |run|, 1
  {
    if IsSilent(j.session) {
      SilentHearsNothing(max, j, run);
    } else {
      AnswersHeard(max, j, run);
    }
  }

  /**
   * However its reads are delivered and whenever its owner or the network intervenes, a client's session
   * has answered exactly the reads it listened to, as a session alone with them would.
   */
  lemma RepliesAnswerReads(max: Limit, run: seq<ClientStack.Event>)
    requires IsOrderly(max, ACCEPTED_STACK, run)
    ensures Later(max, ACCEPTED_STACK, run).session.replies ==
            Reads(max, START, SessionSteps.Start(CREATED), Heard(max, ACCEPTED_STACK, run)).replies
  {
    AcceptedAgrees();
    AnswersHeard(max, ACCEPTED_STACK, run);
    hide Later, Heard, Reads, Agree;
  }
}
