/** What a connection tells its state listeners, and what becomes of its socket. */
module ConnectionHistory {
  import opened Connection
  import opened Counting
  import opened Options
  import opened ConnectionProperties
  import opened ConnectionRuns

  lemma {:induction false} OrderlySnoc(m: Net, run: seq<Event>, e: Event)
    requires IsOrderlyRun(m, run)
    requires Possible(After(m, run), e) && !Overlaps(After(m, run), e)
    ensures IsOrderlyRun(m, run + [e])
    ensures After(m, run + [e]) == Apply(After(m, run), e)
    decreases |run|
  {
    hide Apply, Possible, Overlaps;
    if run == [] {
      assert run + [e] == [e] && [e][1..] == [];
      var next := Apply(m, e);
      assert IsOrderlyRun(next, []) && IsRun(next, []) && Execute(next, []) == next;
      assert IsRun(m, [e]);
    } else {
      assert (run + [e])[1..] == run[1..] + [e];
      OrderlySnoc(Apply(m, run[0]), run[1..], e);
    }
  }

  // ----- announcements

  const HISTORIES: set<seq<ConnectionState>> := {
    [],
    [Secure],
    [Closing],
    [Secure, Closing],
    [Closing, Closed],
    [Secure, Closing, Closed],
    [Closing, Closed, Closed]
  }

  ghost predicate Announces(h: seq<ConnectionState>) {
    exists run :: IsOrderlyRun(ACCEPTED, run) && After(ACCEPTED, run).changes == h
  }

  lemma Extend(run: seq<Event>, e: Event) returns (next: seq<Event>)
    requires IsOrderlyRun(ACCEPTED, run)
    requires Possible(After(ACCEPTED, run), e) && !Overlaps(After(ACCEPTED, run), e)
    ensures IsOrderlyRun(ACCEPTED, next) && After(ACCEPTED, next) == Apply(After(ACCEPTED, run), e)
    ensures Announces(Apply(After(ACCEPTED, run), e).changes)
  {
    next := run + [e];
    OrderlySnoc(ACCEPTED, run, e);
  }

  lemma WithoutOnly(w: Work, ws: seq<Work>)
    ensures Without([w] + ws, 0) == ws
  {}

  lemma PlainHistories()
    ensures Announces([]) && Announces([Closing]) && Announces([Closing, Closed])
  {
    hide Execute, IsOrderlyRun, Without;
    var run := [];
    assert IsOrderlyRun(ACCEPTED, run) && After(ACCEPTED, run) == ACCEPTED by { Start(); }
    assert After(ACCEPTED, run).changes == [];
    run := Extend(run, CallClose(None));
    assert After(ACCEPTED, run).pending == [CloseStep] + [];
    WithoutOnly(CloseStep, []);
    run := Extend(run, Occur(0, Succeeded("")));
  }

  lemma Start()
    ensures IsOrderlyRun(ACCEPTED, []) && After(ACCEPTED, []) == ACCEPTED
  {}

  lemma StartHandshake() returns (run: seq<Event>)
    ensures IsOrderlyRun(ACCEPTED, run)
    ensures After(ACCEPTED, run) == ACCEPTED.(tls := true, handshaking := true, pending := [Handshake])
  {
    hide Execute, IsOrderlyRun, Without;
    Start();
    run := Extend([], CallUpgrade);
    assert After(ACCEPTED, run).pending == [UpgradeStep] + [];
    WithoutOnly(UpgradeStep, []);
    run := Extend(run, Occur(0, Succeeded("")));
  }

  lemma SecureHistories() returns (run: seq<Event>)
    ensures Announces([Secure]) && Announces([Secure, Closing]) && Announces([Secure, Closing, Closed])
    ensures IsOrderlyRun(ACCEPTED, run)
    ensures After(ACCEPTED, run).state == Closed && After(ACCEPTED, run).transportOpen
  {
    run := StartHandshake();
    hide Execute, IsOrderlyRun, Without;
    assert [Handshake] == [Handshake] + [];
    WithoutOnly(Handshake, []);
    run := Extend(run, Occur(0, Succeeded("")));
    run := Extend(run, CallClose(None));
    assert After(ACCEPTED, run).pending == [CloseStep] + [];
    WithoutOnly(CloseStep, []);
    run := Extend(run, Occur(0, Succeeded("")));
  }

  lemma ClosedTwice()
    ensures Announces([Closing, Closed, Closed])
  {
    var run := StartHandshake();
    hide Execute, IsOrderlyRun, Without;
    run := Extend(run, CallClose(None));
    assert After(ACCEPTED, run).pending == [Handshake] + [CloseStep];
    WithoutOnly(Handshake, [CloseStep]);
    run := Extend(run, Occur(0, Succeeded("")));
    assert After(ACCEPTED, run).pending == [CloseStep] == [CloseStep] + [];
    WithoutOnly(CloseStep, []);
    run := Extend(run, Occur(0, Succeeded("")));
  }

  /** The sequences of states the listeners of an orderly run can have been told are exactly these seven. */
  lemma AnnouncementsExactly(h: seq<ConnectionState>)
    ensures Announces(h) <==> h in HISTORIES
  {
    if Announces(h) {
      var run :| IsOrderlyRun(ACCEPTED, run) && After(ACCEPTED, run).changes == h;
      AcceptedInvariant();
      RunInvariant(ACCEPTED, run);
    }
    PlainHistories();
    var secure := SecureHistories();
    ClosedTwice();
    hide Announces;
  }

  /** Whether some step of a run is such as `p` says of the connection before it and the event. */
  predicate Ever(m: Net, run: seq<Event>, p: (Net, Event) -> bool)
    requires IsOrderlyRun(m, run)
    decreases |run|
  {
    run != [] && (p(m, run[0]) || Ever(Apply(m, run[0]), run[1..], p))
  }

  // ----- CLOSED announced twice

  predicate RunsAt(m: Net, e: Event, w: Work) {
    e.Occur? && e.index < |m.pending| && m.pending[e.index] == w
  }

  /** The close begins while a handshake is in flight. */
  predicate ClosesAmidHandshake(m: Net, e: Event) {
    Possible(m, e) && IsOpen(m.state) && m.handshaking && Apply(m, e).state == Closing
  }

  /** The posted close step runs when the connection is CLOSED already. */
  predicate ClosesLate(m: Net, e: Event) {
    m.state == Closed && RunsAt(m, e, CloseStep)
  }

  predicate Late(m: Net, late: bool, amid: bool) {
    && (m.changes == [Closing, Closed, Closed] <==> late)
    && (late ==> amid)
    && (m.state == Closed && CloseStep in m.pending ==> amid)
    && (m.state == Closing && m.handshaking ==> amid)
  }

  lemma CloseLate(m: Net, c: Option<Callback>, late: bool, amid: bool)
    requires Late(m, late, amid) && (IsOpen(m.state) ==> |m.changes| <= 1)
    ensures Late(Close(m, c), late, amid || (IsOpen(m.state) && m.handshaking))
  {}

  lemma EndHandshakeLate(m: Net, c: Completion, late: bool, amid: bool)
    requires Taken(m, Handshake) && Late(m, late, amid)
    ensures Late(EndHandshake(m, c), late, amid)
  {
    hide CallsOf, Tally, Close;
    if m.state == Insecure && c.Failed? { CloseLate(m.(handshaking := false), None, late, amid); }
  }

  lemma CloseStepLate(m: Net, late: bool, amid: bool)
    requires Taken(m, CloseStep) && Late(m, late, amid) && (m.state == Closed ==> amid)
    ensures Late(RunClose(m), late || m.state == Closed, amid)
  {
    hide CallsOf;
    assert (m.changes + [Closed])[0] == m.changes[0];
  }

  lemma HandleLate(m: Net, w: Work, c: Completion, late: bool, amid: bool)
    requires Taken(m, w) && !(w == UpgradeStep && m.handshaking && m.state == Insecure)
    requires Late(m, late, amid) && (w == CloseStep && m.state == Closed ==> amid)
    ensures var m' := Handle(m, w, c);
            Late(m', late || (w == CloseStep && m.state == Closed),
                 amid || (IsOpen(m.state) && m.handshaking && m'.state == Closing && w != Handshake))
  {
    assert IsOpen(m.state) ==> |m.changes| <= 1;
    hide Close, CallsOf, Tally, EndHandshake, RunClose, Announced;
    match w
    case Handshake => EndHandshakeLate(m, c, late, amid);
    case CloseStep => CloseStepLate(m, late, amid);
    case Reading(id) => if c.Failed? { CloseLate(m, Some(OnReadFailure(id, c.error)), late, amid); }
    case Writing(_) => CloseLate(m, None, late, amid);
    case Shutdown => NoShutdown(m);
    case _ =>
  }

  lemma OccurLate(m: Net, e: Event, late: bool, amid: bool)
    requires Invariant(m) && Possible(m, e) && !Overlaps(m, e) && Late(m, late, amid) && e.Occur?
    ensures Late(Apply(m, e), late || ClosesLate(m, e), amid || ClosesAmidHandshake(m, e))
  {
    var w, m0 := m.pending[e.index], m.(pending := Without(m.pending, e.index));
    assert m.state == Closed && w == CloseStep ==> amid;
    assert Late(m0, late, amid) by { WithoutKeepsOut(m.pending, e.index); }
    TakeOut(m, e.index);
    hide Tally, Handle, Without, Sound;
    HandleLate(m0, w, e.completion, late, amid);
    hide Late;
  }

  lemma WithoutKeepsOut(ws: seq<Work>, i: nat)
    requires i < |ws|
    ensures CloseStep in Without(ws, i) ==> CloseStep in ws
  {}

  lemma StepLate(m: Net, e: Event, late: bool, amid: bool)
    requires Invariant(m) && Possible(m, e) && !Overlaps(m, e) && Late(m, late, amid)
    ensures Late(Apply(m, e), late || ClosesLate(m, e), amid || ClosesAmidHandshake(m, e))
  {
    assert IsOpen(m.state) ==> |m.changes| <= 1;
    hide Tally, Handle, Close, Announced, Without;
    match e
    case CallClose(None) => CloseLate(m, None, late, amid);
    case CallClose(Some(id)) => CloseLate(m, Some(OnClose(id)), late, amid);
    case Occur(_, _) => OccurLate(m, e, late, amid);
    case _ =>
  }

  lemma {:induction false} RunLate(m: Net, run: seq<Event>, late: bool, amid: bool)
    requires Invariant(m) && IsOrderlyRun(m, run) && Late(m, late, amid)
    ensures Late(After(m, run), late || Ever(m, run, ClosesLate), amid || Ever(m, run, ClosesAmidHandshake))
    decreases |run|
  {
    hide Apply, Invariant, Late, ClosesLate, ClosesAmidHandshake;
    if run != [] {
      ApplyInvariant(m, run[0]);
      StepLate(m, run[0], late, amid);
      RunLate(Apply(m, run[0]), run[1..], late || ClosesLate(m, run[0]), amid || ClosesAmidHandshake(m, run[0]));
    }
  }

  /**
   * CLOSED is announced twice exactly when the posted close step runs late, the connection being
   * CLOSED already, and that happens only to a close that began during a handshake.
   */
  lemma ClosedTwiceExactly(run: seq<Event>)
    requires IsOrderlyRun(ACCEPTED, run)
    ensures After(ACCEPTED, run).changes == [Closing, Closed, Closed] <==> Ever(ACCEPTED, run, ClosesLate)
    ensures Ever(ACCEPTED, run, ClosesLate) ==> Ever(ACCEPTED, run, ClosesAmidHandshake)
  {
    AcceptedInvariant();
    RunLate(ACCEPTED, run, false, false);
  }

  // ----- the socket

  /** A handshake ends, well or badly, while the connection is still open. */
  predicate Settles(m: Net, e: Event) {
    RunsAt(m, e, Handshake) && IsOpen(m.state)
  }

  /** Where the socket is, given whether a handshake has ended while the connection was open. */
  predicate SocketOf(m: Net, settled: bool) {
    if settled then m.tls && !m.handshaking && m.transportOpen && m.state != Insecure
    else
      && m.state != Secure
      && (m.handshaking ==> m.transportOpen)
      && (m.tls && !m.handshaking ==> m.state == Closed && !m.transportOpen)
      && (!m.tls ==> m.transportOpen == (m.state != Closed))
  }

  lemma CloseSocket(m: Net, c: Option<Callback>, settled: bool)
    requires SocketOf(m, settled) || (m.state == Insecure && settled && m.tls && !m.handshaking && m.transportOpen)
    ensures SocketOf(Close(m, c), settled)
  {}

  lemma HandleSocket(m: Net, w: Work, c: Completion, settled: bool)
    requires Taken(m, w) && w != Shutdown && !(w == UpgradeStep && m.handshaking && m.state == Insecure)
    requires SocketOf(m, settled)
    ensures SocketOf(Handle(m, w, c), settled || (w == Handshake && IsOpen(m.state)))
  {
    hide Tally, CallsOf, Close;
    match w
    case Handshake =>
      if m.state == Insecure && c.Failed? { CloseSocket(m.(handshaking := false), None, true); }
    case Reading(id) => if c.Failed? { CloseSocket(m, Some(OnReadFailure(id, c.error)), settled); }
    case Writing(_) => CloseSocket(m, None, settled);
    case _ =>
  }

  lemma StepSocket(m: Net, e: Event, settled: bool)
    requires Invariant(m) && Possible(m, e) && !Overlaps(m, e) && SocketOf(m, settled)
    ensures SocketOf(Apply(m, e), settled || Settles(m, e))
  {
    hide Tally, Handle, Close;
    match e
    case CallClose(None) => CloseSocket(m, None, settled);
    case CallClose(Some(id)) => CloseSocket(m, Some(OnClose(id)), settled);
    case Occur(i, c) =>
      TakeOut(m, i);
      HandleSocket(m.(pending := Without(m.pending, i)), m.pending[i], c, settled);
    case _ =>
  }

  lemma {:induction false} RunSocket(m: Net, run: seq<Event>, settled: bool)
    requires Invariant(m) && IsOrderlyRun(m, run) && SocketOf(m, settled)
    ensures SocketOf(After(m, run), settled || Ever(m, run, Settles))
    decreases |run|
  {
    hide Apply, Invariant, SocketOf, Settles;
    if run != [] {
      ApplyInvariant(m, run[0]);
      StepSocket(m, run[0], settled);
      RunSocket(Apply(m, run[0]), run[1..], settled || Settles(m, run[0]));
    }
  }

  /**
   * A connection that reports CLOSED has closed its socket exactly when no handshake ended before the
   * close began: the plain close path closes the accepted socket, which the TLS stream took over.
   */
  lemma ClosedSocket(run: seq<Event>)
    requires IsOrderlyRun(ACCEPTED, run) && After(ACCEPTED, run).state == Closed
    ensures After(ACCEPTED, run).transportOpen <==> Ever(ACCEPTED, run, Settles)
  {
    AcceptedInvariant();
    RunSocket(ACCEPTED, run, false);
    RunInvariant(ACCEPTED, run);
  }

  /** It does happen: a connection closed once it is secure reports CLOSED with its socket open. */
  lemma SocketLeftOpen() returns (run: seq<Event>)
    ensures IsOrderlyRun(ACCEPTED, run)
    ensures After(ACCEPTED, run).state == Closed && After(ACCEPTED, run).transportOpen
  {
    run := SecureHistories();
    hide Execute, IsOrderlyRun;
  }

  // ----- upgrades that overlap

  /** Two calls of `upgrade` before the first is handled lead to a step that overlaps. */
  lemma OverlapReachable() returns (run: seq<Event>, e: Event)
    ensures IsOrderlyRun(ACCEPTED, run) && Overlaps(After(ACCEPTED, run), e)
  {
    hide Execute, IsOrderlyRun, Without;
    Start();
    run := Extend([], CallUpgrade);
    run := Extend(run, CallUpgrade);
    assert After(ACCEPTED, run).pending == [UpgradeStep] + [UpgradeStep];
    WithoutOnly(UpgradeStep, [UpgradeStep]);
    run := Extend(run, Occur(0, Succeeded("")));
    e := Occur(0, Succeeded(""));
  }

  /** So the overlap can take a connection just accepted to CLOSED and from there to SECURE. */
  lemma ClosedThenSecure() returns (before: seq<Event>, after: seq<Event>)
    ensures IsRun(ACCEPTED, before) && Execute(ACCEPTED, before).state == Closed
    ensures IsRun(ACCEPTED, before + after) && Execute(ACCEPTED, before + after).state == Secure
  {
    var run, e := OverlapReachable();
    AcceptedInvariant();
    hide Apply, Invariant, Execute, IsRun, IsOrderlyRun;
    RunInvariant(ACCEPTED, run);
    OrderlyIsRun(ACCEPTED, run);
    var m := Execute(ACCEPTED, run);
    OverlapReopens(m, e);
    var rest :| |rest| == 3 && IsRun(Apply(m, e), rest) && IsRun(Apply(m, e), rest[..2])
                && Execute(Apply(m, e), rest[..2]).state == Closed && Execute(Apply(m, e), rest).state == Secure;
    RunCons(m, e, rest);
    RunCons(m, e, rest[..2]);
    RunConcat(ACCEPTED, run, [e] + rest);
    RunConcat(ACCEPTED, run, [e] + rest[..2]);
    before, after := run + ([e] + rest[..2]), rest[2..];
    assert before + after == run + ([e] + rest);
  }
}
