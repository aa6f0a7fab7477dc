/** What each reader of a connection is told: exactly the data and errors of its own reads. */
module ConnectionReads {
  import opened Connection
  import opened Counting
  import opened ConnectionProperties
  import opened ConnectionRuns
  import opened Options
  import opened Sequences

  // ----- data

  /** The data reader `id` has been given, in order. */
  function DataOf(calls: seq<Call>, id: nat): seq<string> {
    if calls == [] then []
    else
      DataOf(calls[..|calls| - 1], id) +
      match calls[|calls| - 1]
      case ReadCall(i, Data(bytes)) => if i == id then [bytes] else []
      case _ => []
  }

  /** A read of `id` in flight succeeds. */
  predicate Succeeds(m: Net, e: Event, id: nat) {
    e.Occur? && e.index < |m.pending| && m.pending[e.index] == Reading(id) && e.completion.Succeeded?
  }

  /** The bytes with which the reads of `id` succeed along a run, in order. */
  function Received(m: Net, run: seq<Event>, id: nat): seq<string>
    requires IsRun(m, run)
    decreases |run|
  {
    if run == [] then []
    else (if Succeeds(m, run[0], id) then [run[0].completion.bytes] else []) + Received(Apply(m, run[0]), run[1..], id)
  }

  /** A successful read gives its reader its bytes at once and does nothing else. */
  lemma SuccessDelivers(m: Net, i: nat, id: nat, bytes: string)
    requires i < |m.pending| && m.pending[i] == Reading(id)
    ensures Apply(m, Occur(i, Succeeded(bytes))) ==
            m.(pending := Without(m.pending, i), calls := m.calls + [ReadCall(id, Data(bytes))])
  {}

  lemma DataSnoc(calls: seq<Call>, c: Call, id: nat)
    ensures DataOf(calls + [c], id) ==
            DataOf(calls, id) + if c.ReadCall? && c.result.Data? && c.id == id then [c.result.bytes] else []
  {
    assert (calls + [c])[..|calls|] == calls;
  }

  lemma {:induction false} DataOfCallbacks(calls: seq<Call>, cs: seq<Callback>, id: nat)
    ensures DataOf(calls + CallsOf(cs), id) == DataOf(calls, id)
    decreases |cs|
  {
    if cs == [] {
      Unit(calls);
    } else {
      var front, last := cs[..|cs| - 1], CallOf(cs[|cs| - 1]);
      DataOfCallbacks(calls, front, id);
      DataSnoc(calls + CallsOf(front), last, id);
      Associate(calls, CallsOf(front), [last]);
      Unit(DataOf(calls, id));
      hide DataOf;
    }
  }

  lemma FinishData(m: Net, id: nat)
    ensures DataOf(Finish(m).calls, id) == DataOf(m.calls, id)
  {
    hide DataOf, CallsOf;
    DataOfCallbacks(m.calls, m.closeCallbacks, id);
  }

  lemma CloseData(m: Net, c: Option<Callback>, id: nat)
    ensures DataOf(Close(m, c).calls, id) == DataOf(m.calls, id)
  {
    hide DataOf;
    if m.state == Closed && c.Some? {
      DataSnoc(m.calls, CallOf(c.value), id);
      Unit(DataOf(m.calls, id));
    }
  }

  lemma HandleData(m: Net, w: Work, c: Completion, id: nat)
    ensures DataOf(Handle(m, w, c).calls, id) ==
            DataOf(m.calls, id) + if w == Reading(id) && c.Succeeded? then [c.bytes] else []
  {
    hide Close, Finish, DataOf;
    Unit(DataOf(m.calls, id));
    match w
    case Handshake =>
      FinishData(m.(handshaking := false, transportOpen := false), id);
      CloseData(m.(handshaking := false), None, id);
    case ReadStep(i) => DataSnoc(m.calls, ReadCall(i, Error(OPERATION_ABORTED)), id);
    case Reading(i) =>
      if c.Failed? {
        CloseData(m, Some(OnReadFailure(i, c.error)), id);
      } else {
        DataSnoc(m.calls, ReadCall(i, Data(c.bytes)), id);
      }
    case Writing(_) => CloseData(m, None, id);
    case CloseStep => FinishData(m.(transportOpen := m.transportOpen && m.tls), id);
    case Shutdown => FinishData(m.(transportOpen := m.transportOpen && !m.tls), id);
    case _ =>
  }

  lemma ApplyData(m: Net, e: Event, id: nat)
    requires Possible(m, e)
    ensures DataOf(Apply(m, e).calls, id) ==
            DataOf(m.calls, id) + if Succeeds(m, e, id) then [e.completion.bytes] else []
  {
    hide Handle, Close, DataOf;
    Unit(DataOf(m.calls, id));
    match e
    case CallRead(i) => DataSnoc(m.calls, ReadCall(i, Error(OPERATION_ABORTED)), id);
    case CallClose(None) => CloseData(m, None, id);
    case CallClose(Some(i)) => CloseData(m, Some(OnClose(i)), id);
    case Occur(i, c) => HandleData(m.(pending := Without(m.pending, i)), m.pending[i], c, id);
    case _ =>
  }

  /** Along every run, overlapping upgrades included, a reader is given exactly what its reads received, in order. */
  lemma {:induction false} DataDelivered(m: Net, run: seq<Event>, id: nat)
    requires IsRun(m, run)
    ensures DataOf(Execute(m, run).calls, id) == DataOf(m.calls, id) + Received(m, run, id)
    decreases |run|
  {
    hide Apply, DataOf, Possible;
    if run == [] {
      Unit(DataOf(m.calls, id));
    } else {
      var now := if Succeeds(m, run[0], id) then [run[0].completion.bytes] else [];
      ApplyData(m, run[0], id);
      DataDelivered(Apply(m, run[0]), run[1..], id);
      Associate(DataOf(m.calls, id), now, Received(Apply(m, run[0]), run[1..], id));
    }
  }

  // ----- errors

  /** How often reader `id` has been told `code`, or is about to be once the connection is closed. */
  function ErrorsOf(m: Net, id: nat, code: nat): nat {
    Tally(m.calls, ReadCall(id, Error(code))) + Tally(m.closeCallbacks, OnReadFailure(id, code))
  }

  /** A read of `id` in flight fails with `code`. */
  predicate FailsWith(m: Net, e: Event, id: nat, code: nat) {
    e.Occur? && e.index < |m.pending| && m.pending[e.index] == Reading(id) && e.completion == Failed(code)
  }

  /** A call or a posted step of `read` finds the connection no longer open. */
  predicate TurnsAway(m: Net, e: Event, id: nat) {
    !IsOpen(m.state) &&
    (e == CallRead(id) || (e.Occur? && e.index < |m.pending| && m.pending[e.index] == ReadStep(id)))
  }

  function Errors(m: Net, run: seq<Event>, id: nat, code: nat): nat
    requires IsRun(m, run)
    decreases |run|
  {
    if run == [] then 0
    else
      Once(FailsWith(m, run[0], id, code)) + Once(code == 125 && TurnsAway(m, run[0], id)) +
      Errors(Apply(m, run[0]), run[1..], id, code)
  }

  lemma {:induction false} ErrorsOfCallbacks(calls: seq<Call>, cs: seq<Callback>, id: nat, code: nat)
    ensures Tally(calls + CallsOf(cs), ReadCall(id, Error(code))) ==
            Tally(calls, ReadCall(id, Error(code))) + Tally(cs, OnReadFailure(id, code))
    decreases |cs|
  {
    if cs == [] {
      Unit(calls);
      TallyEmpty(OnReadFailure(id, code));
    } else {
      var front, last := cs[..|cs| - 1], cs[|cs| - 1];
      assert cs == front + [last];
      ErrorsOfCallbacks(calls, front, id, code);
      TallySnoc(front, last, OnReadFailure(id, code));
      TallySnoc(calls + CallsOf(front), CallOf(last), ReadCall(id, Error(code)));
      Associate(calls, CallsOf(front), [CallOf(last)]);
      hide Tally;
    }
  }

  lemma FinishErrors(m: Net, id: nat, code: nat)
    ensures ErrorsOf(Finish(m), id, code) == ErrorsOf(m, id, code)
  {
    ErrorsOfCallbacks(m.calls, m.closeCallbacks, id, code);
    TallyEmpty(OnReadFailure(id, code));
    hide Tally, CallsOf;
  }

  lemma CloseErrors(m: Net, c: Option<Callback>, id: nat, code: nat)
    ensures ErrorsOf(Close(m, c), id, code) == ErrorsOf(m, id, code) + Once(c == Some(OnReadFailure(id, code)))
  {
    hide Tally;
    if c.Some? {
      TallySnoc(m.calls, CallOf(c.value), ReadCall(id, Error(code)));
      TallySnoc(m.closeCallbacks, c.value, OnReadFailure(id, code));
    }
  }

  lemma HandleErrors(m: Net, w: Work, c: Completion, id: nat, code: nat)
    ensures ErrorsOf(Handle(m, w, c), id, code) ==
            ErrorsOf(m, id, code) + Once(w == Reading(id) && c == Failed(code)) +
            Once(code == 125 && w == ReadStep(id) && !IsOpen(m.state))
  {
    hide Close, Finish, Tally;
    match w
    case Handshake =>
      FinishErrors(m.(handshaking := false, transportOpen := false), id, code);
      CloseErrors(m.(handshaking := false), None, id, code);
    case ReadStep(i) => TallySnoc(m.calls, ReadCall(i, Error(OPERATION_ABORTED)), ReadCall(id, Error(code)));
    case Reading(i) =>
      if c.Failed? {
        CloseErrors(m, Some(OnReadFailure(i, c.error)), id, code);
      } else {
        TallySnoc(m.calls, ReadCall(i, Data(c.bytes)), ReadCall(id, Error(code)));
      }
    case Writing(_) => CloseErrors(m, None, id, code);
    case CloseStep => FinishErrors(m.(transportOpen := m.transportOpen && m.tls), id, code);
    case Shutdown => FinishErrors(m.(transportOpen := m.transportOpen && !m.tls), id, code);
    case _ =>
  }

  lemma ApplyErrors(m: Net, e: Event, id: nat, code: nat)
    requires Possible(m, e)
    ensures ErrorsOf(Apply(m, e), id, code) ==
            ErrorsOf(m, id, code) + Once(FailsWith(m, e, id, code)) + Once(code == 125 && TurnsAway(m, e, id))
  {
    hide Handle, Close, Tally;
    match e
    case CallRead(i) => TallySnoc(m.calls, ReadCall(i, Error(OPERATION_ABORTED)), ReadCall(id, Error(code)));
    case CallClose(None) => CloseErrors(m, None, id, code);
    case CallClose(Some(i)) => CloseErrors(m, Some(OnClose(i)), id, code);
    case Occur(i, c) => HandleErrors(m.(pending := Without(m.pending, i)), m.pending[i], c, id, code);
    case _ =>
  }

  /**
   * Along every run a reader is told of an error, or will be once the connection is closed, exactly as
   * often as its reads failed with that code, and of an abort also each time it was turned away.
   */
  lemma {:induction false} ErrorsDelivered(m: Net, run: seq<Event>, id: nat, code: nat)
    requires IsRun(m, run)
    ensures ErrorsOf(Execute(m, run), id, code) == ErrorsOf(m, id, code) + Errors(m, run, id, code)
    decreases |run|
  {
    hide Apply, ErrorsOf, FailsWith, TurnsAway, Possible;
    if run != [] {
      ApplyErrors(m, run[0], id, code);
      ErrorsDelivered(Apply(m, run[0]), run[1..], id, code);
    }
  }

  /** With the connection CLOSED none is still to be told. */
  lemma ErrorsTold(run: seq<Event>, id: nat, code: nat)
    requires IsOrderlyRun(ACCEPTED, run)
    ensures IsRun(ACCEPTED, run)
    ensures var m := After(ACCEPTED, run);
            && Tally(m.calls, ReadCall(id, Error(code))) <= Errors(ACCEPTED, run, id, code)
            && (m.state == Closed || IsOpen(m.state) ==>
                  Tally(m.calls, ReadCall(id, Error(code))) == Errors(ACCEPTED, run, id, code))
  {
    AcceptedInvariant();
    RunInvariant(ACCEPTED, run);
    OrderlyIsRun(ACCEPTED, run);
    ErrorsDelivered(ACCEPTED, run, id, code);
    TallyEmpty(ReadCall(id, Error(code)));
    TallyEmpty(OnReadFailure(id, code));
    hide Execute, Errors, Tally, IsOrderlyRun, IsRun, Announced;
  }

  // ----- reads on an open connection

  /** A reader is never turned away from an open connection: its step starts a read. */
  lemma OpenReads(m: Net, id: nat, i: nat, c: Completion)
    requires IsOpen(m.state)
    ensures Apply(m, CallRead(id)) == m.(pending := m.pending + [ReadStep(id)])
    ensures i < |m.pending| && m.pending[i] == ReadStep(id) ==>
              Apply(m, Occur(i, c)) == m.(pending := Without(m.pending, i) + [Reading(id)])
  {}

  // ----- order of the close callbacks

  /** They are invoked in the order they were handed in. */
  lemma {:induction false} CallbacksInOrder(cs: seq<Callback>)
    ensures |CallsOf(cs)| == |cs|
    ensures forall i | 0 <= i < |cs| ::
              CallsOf(cs)[i] ==
              match cs[i]
              case OnClose(id) => CloseCall(id)
              case OnReadFailure(id, e) => ReadCall(id, Error(e))
    decreases |cs|
  {
    if cs != [] { CallbacksInOrder(cs[..|cs| - 1]); }
  }

  /** A close callback waits behind those handed in earlier; at CLOSED it is run. */
  lemma CloseQueues(m: Net, id: nat)
    ensures var m' := Apply(m, CallClose(Some(id)));
            if m.state == Closed then m' == m.(calls := m.calls + [CloseCall(id)])
            else m'.closeCallbacks == m.closeCallbacks + [OnClose(id)] && m'.calls == m.calls
  {}

  // ----- what no longer open means for calls, and for cancelling

  /** A connection that is not open takes no more work but cancel steps. */
  lemma NothingPosted(m: Net, e: Event)
    requires !IsOpen(m.state) && !e.Occur?
    ensures Apply(m, e).pending == m.pending + if e == CallCancelRead then [CancelStep] else []
  {
    Unit(m.pending);
    hide CallsOf;
  }

  /** The socket's operations are cancelled by a cancel step while open, and by a close step amid a handshake. */
  lemma CancelsExactly(m: Net, e: Event)
    requires ConnectionProperties.Invariant(m) && Possible(m, e)
    ensures Apply(m, e).cancels ==
            m.cancels +
            Once(e.Occur? && ((m.pending[e.index] == CancelStep && IsOpen(m.state)) ||
                              (m.pending[e.index] == CloseStep && m.handshaking)))
  {
    hide Handle, ConnectionProperties.Invariant;
    match e
    case Occur(i, c) =>
      TakeOut(m, i);
      HandleCancels(m.(pending := Without(m.pending, i)), m.pending[i], c);
      hide Taken, Without;
    case CallClose(callback) => CloseCancels(m, if callback.Some? then Some(OnClose(callback.value)) else None);
    case _ =>
  }

  lemma CloseCancels(m: Net, c: Option<Callback>)
    ensures Close(m, c).cancels == m.cancels
  {}

  lemma HandleCancels(m: Net, w: Work, c: Completion)
    requires Taken(m, w)
    ensures Handle(m, w, c).cancels ==
            m.cancels + Once((w == CancelStep && IsOpen(m.state)) || (w == CloseStep && m.handshaking))
  {
    hide Close, Tally, CallsOf, Announced;
    match w
    case Handshake => CloseCancels(m.(handshaking := false), None);
    case Reading(id) => if c.Failed? { CloseCancels(m, Some(OnReadFailure(id, c.error))); }
    case Writing(_) => CloseCancels(m, None);
    case _ =>
  }

  /**
   * Where overlapping upgrades have let a close step meet a secure connection, TLS is shut down first, and
   * its end closes the socket, reports CLOSED and invokes the close callbacks.
   */
  lemma TlsShutdown(m: Net, i: nat, c: Completion)
    requires i < |m.pending| && m.tls && !m.handshaking
    ensures var m0 := m.(pending := Without(m.pending, i));
            && (m.pending[i] == CloseStep && m.state == Secure ==>
                  Apply(m, Occur(i, c)) == m0.(pending := m0.pending + [Shutdown], cancels := m.cancels + 1))
            && (m.pending[i] == Shutdown ==>
                  Apply(m, Occur(i, c)) ==
                  m0.(state := Closed, changes := m.changes + [Closed], transportOpen := false,
                      closeCallbacks := [], calls := m.calls + CallsOf(m.closeCallbacks)))
  {}

  /** A second upgrade destroys the TLS stream, and with it the socket. */
  lemma OverlapClosesSocket(m: Net, e: Event)
    requires ConnectionProperties.Invariant(m) && Overlaps(m, e)
    ensures !Apply(m, e).transportOpen && Apply(m, e).tls && Apply(m, e).handshaking
  {}
}
