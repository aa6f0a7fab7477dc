/**
 * A TCP connection's life as a step system. Each API call, posted handler and I/O completion is one
 * atomic step; work that has been posted or started and not yet run is pending, in no promised order.
 */
module Connection {
  import opened Counting
  import opened Options

  datatype ConnectionState = Closed | Closing | Secure | Insecure

  /** The error `read` reports when it finds the connection no longer open. */
  const OPERATION_ABORTED: nat := 125

  /** An entry of the close-callback list: a caller's own, or a failed read waiting to be reported. */
  datatype Callback = OnClose(id: nat) | OnReadFailure(id: nat, error: nat)

  datatype ReadResult = Data(bytes: string) | Error(code: nat)

  /** A callback that has been invoked, with what it was given. */
  datatype Call = CloseCall(id: nat) | ReadCall(id: nat, result: ReadResult)

  /** How an asynchronous operation ends. */
  datatype Completion = Succeeded(bytes: string) | Failed(error: nat)

  datatype Work =
    | UpgradeStep
    | Handshake
    | ReadStep(id: nat)
    | Reading(id: nat)
    | CancelStep
    | WriteStep(data: string)
    | Writing(data: string)
    | CloseStep
    | Shutdown

  /**
   * `handshaking` and `tls` are the handshake flag and whether the TLS stream exists. `transportOpen`
   * says whether the socket, wherever it has been moved, has not been closed. The last four fields are
   * history: state changes announced, callbacks invoked, payloads given to the transport, and how often
   * the operations on the socket have been cancelled.
   */
  datatype Net = Net(
    state: ConnectionState,
    handshaking: bool,
    tls: bool,
    transportOpen: bool,
    closeCallbacks: seq<Callback>,
    pending: seq<Work>,
    changes: seq<ConnectionState>,
    calls: seq<Call>,
    sent: seq<string>,
    cancels: nat)

  const ACCEPTED := Net(Insecure, false, false, true, [], [], [], [], [], 0)

  predicate IsOpen(s: ConnectionState) {
    s != Closed && s != Closing
  }

  function Announce(m: Net, s: ConnectionState): Net {
    m.(state := s, changes := m.changes + [s])
  }

  function Post(m: Net, w: Work): Net {
    m.(pending := m.pending + [w])
  }

  function Invoke(m: Net, c: Call): Net {
    m.(calls := m.calls + [c])
  }

  function CallOf(c: Callback): Call {
    match c
    case OnClose(id) => CloseCall(id)
    case OnReadFailure(id, error) => ReadCall(id, Error(error))
  }

  function CallsOf(cs: seq<Callback>): seq<Call> {
    if cs == [] then [] else CallsOf(cs[..|cs| - 1]) + [CallOf(cs[|cs| - 1])]
  }

  /** Announce CLOSED and empty the close-callback list by invoking it in order. */
  function Finish(m: Net): Net {
    var m := Announce(m, Closed);
    m.(closeCallbacks := [], calls := m.calls + CallsOf(m.closeCallbacks))
  }

  // ----- API calls

  function Upgrade(m: Net): Net {
    if IsOpen(m.state) then Post(m, UpgradeStep) else m
  }

  function Read(m: Net, id: nat): Net {
    if IsOpen(m.state) then Post(m, ReadStep(id)) else Invoke(m, ReadCall(id, Error(OPERATION_ABORTED)))
  }

  function CancelRead(m: Net): Net {
    Post(m, CancelStep)
  }

  function Write(m: Net, data: string): Net {
    if IsOpen(m.state) then Post(m, WriteStep(data)) else m
  }

  function Close(m: Net, c: Option<Callback>): Net {
    if m.state == Closed then
      if c.Some? then Invoke(m, CallOf(c.value)) else m
    else
      var m := if c.Some? then m.(closeCallbacks := m.closeCallbacks + [c.value]) else m;
      if m.state == Closing then m else Post(Announce(m, Closing), CloseStep)
  }

  // ----- handlers

  function CancelOperations(m: Net): Net {
    m.(cancels := m.cancels + 1)
  }

  function RunCancel(m: Net): Net {
    if IsOpen(m.state) then CancelOperations(m) else m
  }

  /** A TLS stream that is already there is destroyed, and with it the socket it took over. */
  function RunUpgrade(m: Net): Net {
    if m.state != Insecure then m
    else Post(m.(tls := true, handshaking := true, transportOpen := m.transportOpen && !m.tls), Handshake)
  }

  function EndHandshake(m: Net, c: Completion): Net {
    var m := m.(handshaking := false);
    if m.state == Closing then Finish(m.(transportOpen := false))
    else if c.Failed? then Close(m, None)
    else Announce(m, Secure)
  }

  function RunRead(m: Net, id: nat): Net {
    if IsOpen(m.state) then Post(m, Reading(id)) else Invoke(m, ReadCall(id, Error(OPERATION_ABORTED)))
  }

  function EndRead(m: Net, id: nat, c: Completion): Net {
    match c
    case Failed(error) => Close(m, Some(OnReadFailure(id, error)))
    case Succeeded(bytes) => Invoke(m, ReadCall(id, Data(bytes)))
  }

  function RunWrite(m: Net, data: string): Net {
    if IsOpen(m.state) then Post(m.(sent := m.sent + [data]), Writing(data)) else m
  }

  function EndWrite(m: Net, c: Completion): Net {
    if c.Failed? then Close(m, None) else m
  }

  /** The plain path closes the socket it was accepted with, which a TLS stream has taken away. */
  function RunClose(m: Net): Net {
    if m.handshaking && m.tls then CancelOperations(m)
    else if m.state == Secure && m.tls then Post(CancelOperations(m), Shutdown)
    else Finish(m.(transportOpen := m.transportOpen && m.tls))
  }

  function EndShutdown(m: Net): Net {
    Finish(m.(transportOpen := m.transportOpen && !m.tls))
  }

  function Handle(m: Net, w: Work, c: Completion): Net {
    match w
    case UpgradeStep => RunUpgrade(m)
    case Handshake => EndHandshake(m, c)
    case ReadStep(id) => RunRead(m, id)
    case Reading(id) => EndRead(m, id, c)
    case CancelStep => RunCancel(m)
    case WriteStep(data) => RunWrite(m, data)
    case Writing(_) => EndWrite(m, c)
    case CloseStep => RunClose(m)
    case Shutdown => EndShutdown(m)
  }

  // ----- runs

  datatype Event =
    | CallUpgrade
    | CallRead(id: nat)
    | CallCancelRead
    | CallWrite(data: string)
    | CallClose(callback: Option<nat>)
    | Occur(index: nat, completion: Completion)

  predicate Possible(m: Net, e: Event) {
    e.Occur? ==> e.index < |m.pending|
  }

  function Apply(m: Net, e: Event): Net
    requires Possible(m, e)
  {
    match e
    case CallUpgrade => Upgrade(m)
    case CallRead(id) => Read(m, id)
    case CallCancelRead => CancelRead(m)
    case CallWrite(data) => Write(m, data)
    case CallClose(None) => Close(m, None)
    case CallClose(Some(id)) => Close(m, Some(OnClose(id)))
    case Occur(i, c) => Handle(m.(pending := Without(m.pending, i)), m.pending[i], c)
  }

  predicate IsRun(m: Net, run: seq<Event>)
    decreases |run|
  {
    run == [] || (Possible(m, run[0]) && IsRun(Apply(m, run[0]), run[1..]))
  }

  function Execute(m: Net, run: seq<Event>): Net
    requires IsRun(m, run)
    decreases |run|
  {
    if run == [] then m else Execute(Apply(m, run[0]), run[1..])
  }

  /** A second upgrade step runs while a handshake is in flight, replacing the TLS stream under it. */
  predicate Overlaps(m: Net, e: Event) {
    e.Occur? && e.index < |m.pending| && m.pending[e.index] == UpgradeStep && m.handshaking && m.state == Insecure
  }

  predicate IsOrderlyRun(m: Net, run: seq<Event>)
    decreases |run|
  {
    run == [] ||
    (Possible(m, run[0]) && !Overlaps(m, run[0]) && IsOrderlyRun(Apply(m, run[0]), run[1..]))
  }
}
