/** What makes a connection change state, what readers are told, and what becomes of writes. */
module ConnectionOutcomes {
  import opened Connection
  import opened Counting
  import opened ConnectionProperties
  import opened ConnectionRuns
  import opened Options

  // ----- why the state changes

  predicate Runs(m: Net, e: Event, w: Work)
    requires Possible(m, e)
  {
    e.Occur? && m.pending[e.index] == w
  }

  /** An operation in flight ends badly. */
  predicate Fails(m: Net, e: Event)
    requires Possible(m, e)
  {
    e.Occur? && e.completion.Failed? &&
    (m.pending[e.index] == Handshake || m.pending[e.index].Reading? || m.pending[e.index].Writing?)
  }

  /** An open connection stops being open exactly when it is asked to close or an operation in flight fails. */
  lemma ClosesExactly(m: Net, e: Event)
    requires Invariant(m) && Possible(m, e) && !Overlaps(m, e) && IsOpen(m.state)
    ensures !IsOpen(Apply(m, e).state) <==> e.CallClose? || Fails(m, e)
  {
    if e.Occur? { TallyWithout(m.pending, e.index, CloseStep); }
    hide Tally, Without, CallsOf, Announced;
  }

  /** A connection becomes secure exactly when a handshake succeeds while it is open. */
  lemma SecuresExactly(m: Net, e: Event)
    requires Invariant(m) && Possible(m, e) && !Overlaps(m, e)
    ensures m.state != Secure && Apply(m, e).state == Secure <==>
            Runs(m, e, Handshake) && e.completion.Succeeded? && m.state == Insecure
  {
    if e.Occur? && m.pending[e.index] == Handshake {
      TallyWithout(m.pending, e.index, Handshake);
      hide Tally, Without, Close, Finish, Announced;
    } else {
      hide Tally, Without, CallsOf, Sound;
    }
  }

  /** A closing connection turns CLOSED exactly when its handshake ends or, with none in flight, its close step runs. */
  lemma FinishesExactly(m: Net, e: Event)
    requires Invariant(m) && Possible(m, e) && m.state == Closing
    ensures Apply(m, e).state == Closed <==> Runs(m, e, Handshake) || (Runs(m, e, CloseStep) && !m.handshaking)
  {
    hide Without, CallsOf, Announced;
    if e.Occur? { TallyWithout(m.pending, e.index, Shutdown); }
    hide Tally;
  }

  // ----- what readers are told

  function Completions(run: seq<Event>): set<Completion> {
    if run == [] then {}
    else (if run[0].Occur? then {run[0].completion} else {}) + Completions(run[1..])
  }

  predicate ExplainedCall(c: Call, cs: set<Completion>) {
    match c
    case CloseCall(_) => true
    case ReadCall(_, Data(bytes)) => Succeeded(bytes) in cs
    case ReadCall(_, Error(code)) => code == OPERATION_ABORTED || Failed(code) in cs
  }

  /** Everything told or about to be told comes from some completion among `cs`. */
  predicate Explained(m: Net, cs: set<Completion>) {
    && (forall c | c in m.calls :: ExplainedCall(c, cs))
    && (forall c | c in m.closeCallbacks :: ExplainedCall(CallOf(c), cs))
  }

  lemma {:induction false} CallsExplained(callbacks: seq<Callback>, cs: set<Completion>)
    requires forall c | c in callbacks :: ExplainedCall(CallOf(c), cs)
    ensures forall c | c in CallsOf(callbacks) :: ExplainedCall(c, cs)
    decreases |callbacks|
  {
    if callbacks != [] {
      CallsExplained(callbacks[..|callbacks| - 1], cs);
      hide ExplainedCall, CallOf;
    }
  }

  lemma FinishExplained(m: Net, cs: set<Completion>)
    requires Explained(m, cs)
    ensures Explained(Finish(m), cs)
  {
    CallsExplained(m.closeCallbacks, cs);
    hide ExplainedCall, CallOf, CallsOf;
  }

  lemma CloseExplained(m: Net, c: Option<Callback>, cs: set<Completion>)
    requires Explained(m, cs) && (c.Some? ==> ExplainedCall(CallOf(c.value), cs))
    ensures Explained(Close(m, c), cs)
  {
    hide ExplainedCall, CallOf;
  }

  lemma HandleExplained(m: Net, w: Work, c: Completion, cs: set<Completion>)
    requires Explained(m, cs) && c in cs
    ensures Explained(Handle(m, w, c), cs)
  {
    hide Close, Finish;
    match w
    case Handshake =>
      FinishExplained(m.(handshaking := false, transportOpen := false), cs);
      CloseExplained(m.(handshaking := false), None, cs);
    case Reading(id) => if c.Failed? { CloseExplained(m, Some(OnReadFailure(id, c.error)), cs); }
    case Writing(_) => CloseExplained(m, None, cs);
    case CloseStep => FinishExplained(m.(transportOpen := m.transportOpen && m.tls), cs);
    case Shutdown => FinishExplained(m.(transportOpen := m.transportOpen && !m.tls), cs);
    case _ =>
  }

  lemma ExplainedMore(m: Net, cs: set<Completion>, more: set<Completion>)
    requires Explained(m, cs)
    ensures Explained(m, cs + more)
  {}

  lemma ApplyExplained(m: Net, e: Event, cs: set<Completion>)
    requires Possible(m, e) && Explained(m, cs)
    ensures Explained(Apply(m, e), cs + if e.Occur? then {e.completion} else {})
  {
    hide Handle, Close;
    var all := cs + if e.Occur? then {e.completion} else {};
    ExplainedMore(m, cs, if e.Occur? then {e.completion} else {});
    match e
    case CallClose(None) => CloseExplained(m, None, all);
    case CallClose(Some(id)) => CloseExplained(m, Some(OnClose(id)), all);
    case Occur(i, c) => HandleExplained(m.(pending := Without(m.pending, i)), m.pending[i], c, all);
    case _ =>
  }

  lemma {:induction false} RunExplained(m: Net, run: seq<Event>, cs: set<Completion>)
    requires IsRun(m, run) && Explained(m, cs)
    ensures Explained(Execute(m, run), cs + Completions(run))
    decreases |run|
  {
    hide Apply, Explained;
    if run == [] {
      assert cs + Completions(run) == cs;
    } else {
      var now := if run[0].Occur? then {run[0].completion} else {};
      ApplyExplained(m, run[0], cs);
      RunExplained(Apply(m, run[0]), run[1..], cs + now);
      assert cs + now + Completions(run[1..]) == cs + Completions(run);
    }
  }

  /** Data and errors given to readers are those with which operations ended, or the abort of a closed connection. */
  lemma ResultsAreReal(run: seq<Event>, id: nat, r: ReadResult)
    requires IsRun(ACCEPTED, run) && ReadCall(id, r) in Execute(ACCEPTED, run).calls
    ensures match r
            case Data(bytes) => Succeeded(bytes) in Completions(run)
            case Error(code) => code == OPERATION_ABORTED || Failed(code) in Completions(run)
  {
    RunExplained(ACCEPTED, run, {});
    assert {} + Completions(run) == Completions(run);
    hide Execute, Completions;
  }

  // ----- writes

  /** How often `data` has been given to the transport or is about to be. */
  function Outgoing(m: Net, data: string): nat {
    Tally(m.pending, WriteStep(data)) + multiset(m.sent)[data]
  }

  function Written(run: seq<Event>, data: string): nat {
    if run == [] then 0 else Once(run[0] == CallWrite(data)) + Written(run[1..], data)
  }

  lemma PostOutgoing(m: Net, w: Work, data: string)
    ensures Outgoing(Post(m, w), data) == Outgoing(m, data) + Once(w == WriteStep(data))
  {
    TallySnoc(m.pending, w, WriteStep(data));
  }

  lemma CloseOutgoing(m: Net, c: Option<Callback>, data: string)
    ensures Outgoing(Close(m, c), data) == Outgoing(m, data)
    ensures Outgoing(Finish(m), data) == Outgoing(m, data)
  {
    PostOutgoing(Announce(m, Closing), CloseStep, data);
    if c.Some? { PostOutgoing(Announce(m.(closeCallbacks := m.closeCallbacks + [c.value]), Closing), CloseStep, data); }
    hide Tally, CallsOf;
  }

  lemma RunWriteOutgoing(m: Net, d: string, data: string)
    ensures Outgoing(RunWrite(m, d), data) == Outgoing(m, data) + Once(d == data && IsOpen(m.state))
  {
    PostOutgoing(m.(sent := m.sent + [d]), Writing(d), data);
    assert multiset(m.sent + [d])[data] == multiset(m.sent)[data] + Once(d == data);
    hide Tally;
  }

  lemma EndingsOutgoing(m: Net, c: Completion, data: string)
    ensures Outgoing(EndHandshake(m, c), data) == Outgoing(m, data)
    ensures Outgoing(RunClose(m), data) == Outgoing(m, data)
    ensures Outgoing(EndShutdown(m), data) == Outgoing(m, data)
  {
    hide Tally, Close, Finish;
    CloseOutgoing(m.(handshaking := false), None, data);
    CloseOutgoing(m.(handshaking := false, transportOpen := false), None, data);
    PostOutgoing(m, Shutdown, data);
    CloseOutgoing(m.(transportOpen := m.transportOpen && m.tls), None, data);
    CloseOutgoing(m.(transportOpen := m.transportOpen && !m.tls), None, data);
  }

  lemma HandleOutgoing(m: Net, w: Work, c: Completion, data: string)
    ensures Outgoing(Handle(m, w, c), data) == Outgoing(m, data) + Once(w == WriteStep(data) && IsOpen(m.state))
  {
    hide Tally, Close, RunWrite, EndHandshake, RunClose, EndShutdown;
    EndingsOutgoing(m, c, data);
    match w
    case WriteStep(d) => RunWriteOutgoing(m, d, data);
    case UpgradeStep =>
      PostOutgoing(m.(tls := true, handshaking := true, transportOpen := m.transportOpen && !m.tls), Handshake, data);
    case ReadStep(id) => PostOutgoing(m, Reading(id), data);
    case Reading(id) => if c.Failed? { CloseOutgoing(m, Some(OnReadFailure(id, c.error)), data); }
    case Writing(_) => CloseOutgoing(m, None, data);
    case _ =>
  }

  lemma ApplyOutgoing(m: Net, e: Event, data: string)
    requires Possible(m, e)
    ensures Outgoing(Apply(m, e), data) <= Outgoing(m, data) + Once(e == CallWrite(data))
    ensures IsOpen(m.state) ==> Outgoing(Apply(m, e), data) == Outgoing(m, data) + Once(e == CallWrite(data))
  {
    hide Handle, Close;
    match e
    case CallUpgrade => PostOutgoing(m, UpgradeStep, data);
    case CallRead(id) => PostOutgoing(m, ReadStep(id), data);
    case CallCancelRead => PostOutgoing(m, CancelStep, data);
    case CallWrite(d) => PostOutgoing(m, WriteStep(d), data);
    case CallClose(None) => CloseOutgoing(m, None, data);
    case CallClose(Some(id)) => CloseOutgoing(m, Some(OnClose(id)), data);
    case Occur(i, c) =>
      TallyWithout(m.pending, i, WriteStep(data));
      HandleOutgoing(m.(pending := Without(m.pending, i)), m.pending[i], c, data);
      hide Without, Tally;
  }

  lemma StepSendsNothing(m: Net, e: Event)
    requires Possible(m, e) && !IsOpen(m.state)
    ensures Apply(m, e).sent == m.sent
  {
    hide Without, CallsOf;
    if e.Occur? {
      var m0 := m.(pending := Without(m.pending, e.index));
      assert Handle(m0, m.pending[e.index], e.completion).sent == m.sent;
    }
  }

  /** Once the connection is no longer open it stays so, and nothing more is sent. */
  lemma {:induction false} NothingSentAfterClose(m: Net, run: seq<Event>)
    requires Invariant(m) && IsOrderlyRun(m, run) && !IsOpen(m.state)
    ensures !IsOpen(After(m, run).state) && After(m, run).sent == m.sent
    decreases |run|
  {
    hide Apply, Invariant, Overlaps, Possible;
    if run != [] {
      ApplyInvariant(m, run[0]);
      StepSendsNothing(m, run[0]);
      StepForward(m, run[0]);
      NothingSentAfterClose(Apply(m, run[0]), run[1..]);
    }
  }

  /** No payload is sent twice, and while the connection stays open none is lost either. */
  lemma {:induction false} WritesSent(m: Net, run: seq<Event>, data: string)
    requires Invariant(m) && IsOrderlyRun(m, run)
    ensures Outgoing(After(m, run), data) <= Outgoing(m, data) + Written(run, data)
    ensures IsOpen(After(m, run).state) ==> Outgoing(After(m, run), data) == Outgoing(m, data) + Written(run, data)
    decreases |run|
  {
    hide Apply, Invariant, Outgoing, Overlaps, Possible;
    if run != [] {
      ApplyInvariant(m, run[0]);
      ApplyOutgoing(m, run[0], data);
      WritesSent(Apply(m, run[0]), run[1..], data);
      ForwardOnly(m, run);
    }
  }

  /** With nothing pending on an open connection, what was written is what was sent. */
  lemma OpenAndIdleHasSent(run: seq<Event>, data: string)
    requires IsOrderlyRun(ACCEPTED, run)
    requires var m := After(ACCEPTED, run); IsOpen(m.state) && m.pending == []
    ensures multiset(After(ACCEPTED, run).sent)[data] == Written(run, data)
  {
    AcceptedInvariant();
    WritesSent(ACCEPTED, run, data);
  }
}
