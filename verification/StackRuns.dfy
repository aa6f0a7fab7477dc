/** What holds of a client from end to end along every run. */
module StackRuns {
  import opened Counting
  import opened Options
  import opened Tokens
  import opened Machine
  import opened SessionSteps
  import opened SessionStream
  import opened Connection
  import opened ConnectionProperties
  import opened ConnectionRuns
  import opened ConnectionOrder
  import opened ClientStack
  import Lifecycle = SessionLifecycle

  // ----- runs

  /** Every step is possible, and no upgrade step runs while a handshake is in flight. */
  ghost predicate IsOrderly(max: Limit, j: Stack, run: seq<ClientStack.Event>)
    decreases |run|
  {
    run == [] ||
    (ClientStack.Possible(j, run[0]) && !ClientStack.Overlaps(j, run[0]) &&
     IsOrderly(max, ClientStack.Apply(max, j, run[0]), run[1..]))
  }

  ghost function Later(max: Limit, j: Stack, run: seq<ClientStack.Event>): Stack
    requires IsOrderly(max, j, run)
    decreases |run|
  {
    if run == [] then j else Later(max, ClientStack.Apply(max, j, run[0]), run[1..])
  }

  // ----- calls made for a session

  /** How often `k` should have a place at the connection. */
  function Expected(j: Stack, k: Client): nat
    requires j.delivered <= |j.net.calls|
  {
    if k == Reader(READER) then j.session.outstandingReads + Count(j.net.calls[..j.delivered], OfCall, k)
    else if k == Closer(CLOSER) then j.session.closes
    else 0
  }

  /**
   * Session and connection agree: the reads and the close the session counts are the ones the
   * connection holds or has answered, and a session that has shut down has closed its connection.
   */
  ghost predicate Agree(j: Stack) {
    && Lifecycle.Books(j.session)
    && ConnectionProperties.Invariant(j.net)
    && j.delivered <= |j.net.calls|
    && (forall k :: Places(j.net, k) == Expected(j, k))
    && (j.session.shutDown ==> !IsOpen(j.net.state))
  }

  lemma CloseGrowsCalls(m: Net, c: Option<Callback>)
    ensures m.calls <= Connection.Close(m, c).calls && m.calls <= Finish(m).calls
  {}

  lemma HandleGrowsCalls(m: Net, w: Work, c: Completion)
    ensures m.calls <= Handle(m, w, c).calls
  {
    CloseGrowsCalls(m.(handshaking := false, transportOpen := false), None);
    CloseGrowsCalls(m.(handshaking := false), None);
    CloseGrowsCalls(m.(transportOpen := m.transportOpen && m.tls), None);
    CloseGrowsCalls(m.(transportOpen := m.transportOpen && !m.tls), None);
    if w.Reading? && c.Failed? { CloseGrowsCalls(m, Some(OnReadFailure(w.id, c.error))); }
    CloseGrowsCalls(m, None);
    hide Connection.Close, Finish;
  }

  /** Callbacks invoked stay invoked. */
  lemma CallsGrow(m: Net, e: Connection.Event)
    requires Connection.Possible(m, e)
    ensures m.calls <= Connection.Apply(m, e).calls
  {
    match e
    case CallClose(c) => CloseGrowsCalls(m, if c.Some? then Some(OnClose(c.value)) else None);
    case Occur(i, c) =>
      hide Without, Handle;
      HandleGrowsCalls(m.(pending := Without(m.pending, i)), m.pending[i], c);
    case _ =>
  }

  lemma {:induction false} AskKeeps(m: Net, es: seq<Connection.Event>)
    requires AreCalls(es) && ConnectionProperties.Invariant(m)
    ensures var m' := Ask(m, es);
            && ConnectionProperties.Invariant(m')
            && m.calls <= m'.calls
            && (!IsOpen(m.state) || CLOSE in es ==> !IsOpen(m'.state))
    decreases |es|
  {
    hide Connection.Apply, ConnectionProperties.Invariant;
    CallsRun(m, es);
    if es != [] {
      assert es[0] in es;
      assert AreCalls(es[1..]) by { assert forall e | e in es[1..] :: e in es; }
      var next := Connection.Apply(m, es[0]);
      ApplyInvariant(m, es[0]);
      CallsGrow(m, es[0]);
      StepForward(m, es[0]);
      CloseCloses(m);
      AskKeeps(next, es[1..]);
      CallsRun(next, es[1..]);
    }
  }

  lemma CloseCloses(m: Net)
    ensures !IsOpen(Connection.Apply(m, CLOSE).state)
  {}

  lemma AskPlaces(m: Net, es: seq<Connection.Event>, k: Client)
    requires AreCalls(es)
    ensures Places(Ask(m, es), k) == Places(m, k) + Requested(es, k)
  {
    CallsRun(m, es);
    OrderlyIsRun(m, es);
    CallbacksConserved(m, es, k);
    hide Execute, Waiting, Answered, Requested;
  }

  /** Calls made on behalf of a session keep the two in agreement. */
  lemma AskAgrees(j: Stack, es: seq<Connection.Event>, s: Session, reader: Config)
    requires Agree(j) && Lifecycle.Books(s) && Carries(es, j.session, s)
    ensures Agree(Stack(s, reader, Ask(j.net, es), j.delivered))
  {
    var j' := Stack(s, reader, Ask(j.net, es), j.delivered);
    AskKeeps(j.net, es);
    assert j'.net.calls[..j.delivered] == j.net.calls[..j.delivered];
    hide Ask, ConnectionProperties.Invariant, Requested, Places, Count, Writes, Payloads;
    forall k
      ensures Places(j'.net, k) == Expected(j', k)
    {
      AskPlaces(j.net, es, k);
    }
  }

  lemma ActAgrees(j: Stack, s: Session)
    requires Agree(j) && Lifecycle.Books(s) && Grows(j.session, s)
    ensures Agree(Act(j, s))
  {
    RequestsCarry(j.session, s);
    AskAgrees(j, Requests(j.session, s), s, j.reader);
    hide Agree, Requests, Carries;
  }

  lemma ReadAgrees(j: Stack)
    requires Agree(j)
    ensures Agree(j.(session := j.session.(outstandingReads := j.session.outstandingReads + 1),
                     net := Connection.Read(j.net, READER)))
  {
    var e := CallRead(READER);
    var j' := j.(session := j.session.(outstandingReads := j.session.outstandingReads + 1),
                 net := Connection.Apply(j.net, e));
    ApplyInvariant(j.net, e);
    StepForward(j.net, e);
    CallsGrow(j.net, e);
    assert j'.net.calls[..j.delivered] == j.net.calls[..j.delivered];
    hide ConnectionProperties.Invariant, Places, Count;
    forall k
      ensures Places(j'.net, k) == Expected(j', k)
    {
      ApplyPlaces(j.net, e, k);
    }
  }

  lemma HandlerAgrees(j: Stack, e: Connection.Event)
    requires Agree(j) && e.Occur? && Connection.Possible(j.net, e) && !Connection.Overlaps(j.net, e)
    ensures Agree(j.(net := Connection.Apply(j.net, e)))
  {
    var j' := j.(net := Connection.Apply(j.net, e));
    ApplyInvariant(j.net, e);
    StepForward(j.net, e);
    CallsGrow(j.net, e);
    assert j'.net.calls[..j.delivered] == j.net.calls[..j.delivered];
    hide ConnectionProperties.Invariant, Places, Count, Connection.Apply;
    forall k
      ensures Places(j'.net, k) == Expected(j', k)
    {
      ApplyPlaces(j.net, e, k);
    }
  }

  lemma CountDelivered(calls: seq<Call>, d: nat, k: Client)
    requires d < |calls|
    ensures Count(calls[..d + 1], OfCall, k) == Count(calls[..d], OfCall, k) + One(OfCall(calls[d]), k)
    ensures Count(calls, OfCall, k) >= Count(calls[..d], OfCall, k) + One(OfCall(calls[d]), k)
  {
    assert calls[..d + 1] == calls[..d] + [calls[d]];
    CountSnoc(calls[..d], calls[d], OfCall, k);
    assert calls == calls[..d + 1] + calls[d + 1..];
    CountConcat(calls[..d + 1], calls[d + 1..], OfCall, k);
  }

  /** A callback about to be delivered is the session's: its close, or a read it is waiting for. */
  lemma DeliveryAwaited(j: Stack)
    requires Agree(j) && j.delivered < |j.net.calls|
    ensures match j.net.calls[j.delivered]
            case CloseCall(id) => id == CLOSER
            case ReadCall(id, _) => id == READER && j.session.outstandingReads > 0
  {
    var c := j.net.calls[j.delivered];
    var k := OfCall(c).value;
    CountDelivered(j.net.calls, j.delivered, k);
    assert Places(j.net, k) == Expected(j, k);
    hide Count;
  }

  /** Being told of a read's end takes it off the reads outstanding. */
  lemma ToldAgrees(j: Stack)
    requires Agree(j) && j.delivered < |j.net.calls|
    ensures var told := j.(delivered := j.delivered + 1);
            match j.net.calls[j.delivered]
            case CloseCall(_) => Agree(told)
            case ReadCall(_, _) =>
              && j.session.outstandingReads > 0
              && Agree(told.(session := j.session.(outstandingReads := j.session.outstandingReads - 1)))
  {
    DeliveryAwaited(j);
    var c := j.net.calls[j.delivered];
    CountDelivered(j.net.calls, j.delivered, Reader(READER));
    hide Count, Places, ConnectionProperties.Invariant;
  }

  lemma FinishReadAgrees(max: Limit, j: Stack, r: ReadResult, tlsReady: bool)
    requires j.session.outstandingReads > 0
    requires Agree(j.(session := j.session.(outstandingReads := j.session.outstandingReads - 1)))
    ensures Agree(FinishRead(max, j, r, tlsReady))
  {
    var s := j.session.(outstandingReads := j.session.outstandingReads - 1);
    var j0 := j.(session := s);
    if !Listens(s, r) {
      FlagsGrow(s);
      ActAgrees(j0, if !s.shutDown && s.connected then SessionSteps.Shutdown(s) else s);
      hide Act, Agree, Run;
    } else {
      var env := Environment(j.net.state == Secure, tlsReady);
      var reader := Run(max, j.reader, r.bytes);
      var ts := NewTokens(j.reader, reader);
      hide Run, NewTokens, Hear, HearRequests, Ask, Connection.Read;
      HearCarries(s, ts, env);
      Lifecycle.HearBooks(s, ts, env);
      AskAgrees(j0, HearRequests(s, ts, env), Hear(s, ts, env), reader);
      ReadAgrees(Stack(Hear(s, ts, env), reader, Ask(j.net, HearRequests(s, ts, env)), j.delivered));
    }
  }

  lemma ApplyAgrees(max: Limit, j: Stack, e: ClientStack.Event)
    requires Agree(j) && ClientStack.Possible(j, e) && !ClientStack.Overlaps(j, e)
    ensures Agree(ClientStack.Apply(max, j, e))
  {
    match e
    case Handler(i, c) => HandlerAgrees(j, Occur(i, c));
    case Delivery(tlsReady) =>
      ToldAgrees(j);
      var told := j.(delivered := j.delivered + 1);
      if j.net.calls[j.delivered].ReadCall? {
        FinishReadAgrees(max, told, j.net.calls[j.delivered].result, tlsReady);
      }
      hide Agree, FinishRead;
    case OwnerStops =>
      FlagsGrow(j.session);
      ActAgrees(j, Stop(j.session));
    case OwnerShutsDown =>
      FlagsGrow(j.session);
      ActAgrees(j, SessionSteps.Shutdown(j.session));
  }

  lemma AcceptedAgrees()
    ensures Agree(ACCEPTED_STACK) && Lifecycle.Invariant(ACCEPTED_STACK.session)
  {
    AcceptedInvariant();
    var e := CallRead(READER);
    ConnectionProperties.ApplyInvariant(ACCEPTED, e);
    forall k
      ensures Places(ACCEPTED_STACK.net, k) == Expected(ACCEPTED_STACK, k)
    {
      ApplyPlaces(ACCEPTED, e, k);
    }
  }

  lemma FinishReadLives(max: Limit, j: Stack, r: ReadResult, tlsReady: bool)
    requires Lifecycle.Invariant(j.session) && j.session.outstandingReads > 0
    ensures Lifecycle.Invariant(FinishRead(max, j, r, tlsReady).session)
  {
    FinishReadIsOnRead(max, j, r, tlsReady);
    hide FinishRead, OnRead, Run, NewTokens, Lifecycle.Invariant;
    Lifecycle.ApplyInvariant(
      j.session,
      Lifecycle.ReadEnds(
        if r.Error? then ReadError
        else ReadEnd.Tokens(NewTokens(j.reader, Run(max, j.reader, r.bytes)),
                            Environment(j.net.state == Secure, tlsReady))));
  }

  /** The session's own invariant: while it is live it waits for exactly one read. */
  lemma ApplyLives(max: Limit, j: Stack, e: ClientStack.Event)
    requires Lifecycle.Invariant(j.session) && ClientStack.Possible(j, e)
    ensures Lifecycle.Invariant(ClientStack.Apply(max, j, e).session)
  {
    match e
    case Handler(_, _) =>
    case Delivery(tlsReady) =>
      var told, c := j.(delivered := j.delivered + 1), j.net.calls[j.delivered];
      if c.ReadCall? {
        FinishReadLives(max, told, c.result, tlsReady);
      }
      hide FinishRead, Lifecycle.Invariant;
    case OwnerStops => Lifecycle.ApplyInvariant(j.session, Lifecycle.CallStop);
    case OwnerShutsDown => Lifecycle.ApplyInvariant(j.session, Lifecycle.CallShutdown);
  }

  lemma {:induction false} LaterAgrees(max: Limit, j: Stack, run: seq<ClientStack.Event>)
    requires Agree(j) && Lifecycle.Invariant(j.session) && IsOrderly(max, j, run)
    ensures Agree(Later(max, j, run)) && Lifecycle.Invariant(Later(max, j, run).session)
    decreases |run|
  {
    hide ClientStack.Apply, Agree, Lifecycle.Invariant, ClientStack.Possible, ClientStack.Overlaps;
    if run != [] {
      ApplyAgrees(max, j, run[0]);
      ApplyLives(max, j, run[0]);
      LaterAgrees(max, ClientStack.Apply(max, j, run[0]), run[1..]);
    }
  }

  // ----- how a client ends

  /** How often the connection has been told to delete itself. */
  function Deletions(m: Net): nat {
    Tally(m.calls, CloseCall(CLOSER))
  }

  lemma {:induction false} DeletionsAnswer(calls: seq<Call>)
    ensures Tally(calls, CloseCall(CLOSER)) == Count(calls, OfCall, Closer(CLOSER))
    decreases |calls|
  {
    if calls != [] {
      var front, last := calls[..|calls| - 1], calls[|calls| - 1];
      assert calls == front + [last];
      TallySnoc(front, last, CloseCall(CLOSER));
      DeletionsAnswer(front);
      hide Tally;
    }
  }

  /** Along every run the connection is deleted at most once, when the session has shut down and it is CLOSED. */
  lemma DeletedAtMostOnce(max: Limit, run: seq<ClientStack.Event>)
    requires IsOrderly(max, ACCEPTED_STACK, run)
    ensures var j := Later(max, ACCEPTED_STACK, run);
            && Deletions(j.net) <= 1
            && (Deletions(j.net) == 1 ==> j.session.shutDown && j.net.state == Closed)
  {
    AcceptedAgrees();
    LaterAgrees(max, ACCEPTED_STACK, run);
    var j := Later(max, ACCEPTED_STACK, run);
    DeletionsAnswer(j.net.calls);
    assert Places(j.net, Closer(CLOSER)) == Expected(j, Closer(CLOSER));
    assert CloseCall(CLOSER) in j.net.calls ==> j.net.state == Closed;
    hide Count, Later, Announced;
  }

  /** Nothing is pending at the connection, and the session has been told of every callback. */
  predicate IsAtRest(j: Stack) {
    j.net.pending == [] && j.delivered == |j.net.calls|
  }

  lemma RestEnds(j: Stack)
    requires Agree(j) && Lifecycle.Invariant(j.session) && IsAtRest(j)
    ensures j.session.outstandingReads == 0 && (j.session.shutDown || j.session.threw)
    ensures j.session.shutDown ==>
              j.session.completions == 1 && j.net.state == Closed && Deletions(j.net) == 1
  {
    ClosedWhenIdle(j.net);
    DeletionsAnswer(j.net.calls);
    assert Places(j.net, Closer(CLOSER)) == Expected(j, Closer(CLOSER));
    assert Places(j.net, Reader(READER)) == Expected(j, Reader(READER));
    assert j.net.calls[..j.delivered] == j.net.calls;
    hide Count, Announced, Waiting;
  }

  /**
   * When everything has come to rest the session has shut down, unless an exception left it; and then
   * its owner has been told once, the connection is CLOSED, and it has been deleted exactly once.
   */
  lemma EndsDeletedOnce(max: Limit, run: seq<ClientStack.Event>)
    requires IsOrderly(max, ACCEPTED_STACK, run) && IsAtRest(Later(max, ACCEPTED_STACK, run))
    ensures var j := Later(max, ACCEPTED_STACK, run);
            && j.session.outstandingReads == 0 && (j.session.shutDown || j.session.threw)
            && (j.session.shutDown ==> j.session.completions == 1 && j.net.state == Closed && Deletions(j.net) == 1)
  {
    AcceptedAgrees();
    LaterAgrees(max, ACCEPTED_STACK, run);
    RestEnds(Later(max, ACCEPTED_STACK, run));
    hide Later;
  }

  // ----- a session that has shut down comes to rest

  predicate OnlyReactions(run: seq<ClientStack.Event>) {
    forall e | e in run :: e.Handler? || e.Delivery?
  }

  /** Work still to run and callbacks still to be invoked or told. */
  function Remaining(j: Stack): int {
    |j.net.pending| + Places(j.net, Reader(READER)) + Places(j.net, Closer(CLOSER)) - j.delivered
  }

  /** Every callback invoked is the session's. */
  lemma {:induction false} CallsAreOurs(calls: seq<Call>)
    requires forall k :: k != Reader(READER) && k != Closer(CLOSER) ==> Count(calls, OfCall, k) == 0
    ensures |calls| == Count(calls, OfCall, Reader(READER)) + Count(calls, OfCall, Closer(CLOSER))
    decreases |calls|
  {
    if calls != [] {
      var front, last := calls[..|calls| - 1], calls[|calls| - 1];
      assert calls == front + [last];
      var k := OfCall(last).value;
      CountSnoc(front, last, OfCall, k);
      forall k
        ensures Count(calls, OfCall, k) == Count(front, OfCall, k) + One(OfCall(last), k)
      {
        CountSnoc(front, last, OfCall, k);
      }
      hide Count;
      CallsAreOurs(front);
    }
  }

  lemma RestExactly(j: Stack)
    requires Agree(j) && j.session.shutDown
    ensures 0 <= Remaining(j) && (Remaining(j) == 0 ==> IsAtRest(j))
  {
    forall k | k != Reader(READER) && k != Closer(CLOSER)
      ensures Count(j.net.calls, OfCall, k) == 0
    {
      assert Places(j.net, k) == Expected(j, k);
    }
    CallsAreOurs(j.net.calls);
    hide Count;
  }

  /** After shutdown each handler and each delivery leaves exactly one thing fewer to do. */
  lemma ReactionUsesUp(max: Limit, j: Stack, e: ClientStack.Event)
    requires Agree(j) && j.session.shutDown && (e.Handler? || e.Delivery?)
    requires ClientStack.Possible(j, e)
    ensures !ClientStack.Overlaps(j, e) && ClientStack.Apply(max, j, e).session.shutDown
    ensures Remaining(ClientStack.Apply(max, j, e)) == Remaining(j) - 1
  {
    if e.Handler? {
      var step := Occur(e.index, e.completion);
      ClosingShrinks(j.net, step);
      hide Places, Connection.Apply, ConnectionProperties.Invariant;
      ApplyPlaces(j.net, step, Reader(READER));
      ApplyPlaces(j.net, step, Closer(CLOSER));
    } else {
      hide Places, Hear, Run, HearRequests;
      assert WriteCalls([]) == [] && Repeat(CallUpgrade, 0) == Repeat(CallCancelRead, 0) == Repeat(CLOSE, 0) == [];
    }
  }

  /**
   * Once the session has shut down, handlers and deliveries in any order and with any outcomes run
   * out; when they have, the connection is CLOSED and has been deleted exactly once.
   */
  lemma {:induction false} ShutdownRunsOut(max: Limit, j: Stack, run: seq<ClientStack.Event>)
    requires Agree(j) && Lifecycle.Invariant(j.session) && j.session.shutDown
    requires IsOrderly(max, j, run) && OnlyReactions(run)
    ensures |run| <= Remaining(j)
    ensures var end := Later(max, j, run);
            |run| == Remaining(j) ==> IsAtRest(end) && end.net.state == Closed && Deletions(end.net) == 1
    decreases |run|
  {
    hide ClientStack.Apply, Agree, Lifecycle.Invariant, ClientStack.Overlaps, ClientStack.Possible;
    RestExactly(j);
    if run != [] {
      var e := run[0];
      assert e in run;
      assert OnlyReactions(run[1..]) by { assert forall x | x in run[1..] :: x in run; }
      ReactionUsesUp(max, j, e);
      ApplyAgrees(max, j, e);
      ApplyLives(max, j, e);
      ShutdownRunsOut(max, ClientStack.Apply(max, j, e), run[1..]);
    } else if Remaining(j) == 0 {
      RestEnds(j);
    }
  }

  /** Until then something can always happen. */
  lemma GoesOn(j: Stack) returns (e: ClientStack.Event)
    requires Agree(j) && j.session.shutDown && !IsAtRest(j)
    ensures ClientStack.Possible(j, e) && !ClientStack.Overlaps(j, e) && (e.Handler? || e.Delivery?)
  {
    if j.net.pending != [] {
      e := ClientStack.Handler(0, Succeeded(""));
    } else {
      e := ClientStack.Delivery(true);
      DeliveryAwaited(j);
    }
  }

  /** So from every state with the session shut down a run to rest exists. */
  lemma {:induction false} ShutdownFinishes(max: Limit, j: Stack) returns (run: seq<ClientStack.Event>)
    requires Agree(j) && Lifecycle.Invariant(j.session) && j.session.shutDown
    ensures IsOrderly(max, j, run) && OnlyReactions(run) && IsAtRest(Later(max, j, run))
    decreases Remaining(j)
  {
    RestExactly(j);
    if IsAtRest(j) {
      run := [];
    } else {
      var e := GoesOn(j);
      ReactionUsesUp(max, j, e);
      ApplyAgrees(max, j, e);
      ApplyLives(max, j, e);
      RestExactly(ClientStack.Apply(max, j, e));
      var rest := ShutdownFinishes(max, ClientStack.Apply(max, j, e));
      run := [e] + rest;
      assert run[1..] == rest;
      hide ClientStack.Apply, Agree, ClientStack.Possible, ClientStack.Overlaps, Remaining, Lifecycle.Invariant;
    }
  }
}
